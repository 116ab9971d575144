/** The tokenizer: a character scanner that turns the expression text into
    `num`, `name` and single-character `op` tokens, skipping spaces. */
module Lexer {
  import opened Host

  /** The class `[0-9]`: no digit is a letter, an operator, `.`, `_` or a
      space, so the scanner's number branch never competes with another. */
  predicate IsDigit(c: char)
    ensures IsDigit(c) ==> !IsLetter(c) && !IsOpChar(c) && c != '.' && c != '_' && c != ' '
  {
    '0' <= c <= '9'
  }

  /** The class `[a-zA-Z]`: no letter is an operator, `.`, `_` or a space. */
  predicate IsLetter(c: char)
    ensures IsLetter(c) ==> !IsOpChar(c) && c != '.' && c != '_' && c != ' '
  {
    'a' <= c <= 'z' || 'A' <= c <= 'Z'
  }

  /** The characters a number run continues over, `[0-9.]`. */
  predicate IsNumberChar(c: char)
  {
    IsDigit(c) || c == '.'
  }

  /** The characters a name continues over, `[a-zA-Z0-9_]`. */
  predicate IsNameChar(c: char)
  {
    IsLetter(c) || IsDigit(c) || c == '_'
  }

  const OpChars: string := "+-*/^()%!,"

  /** One of the ten characters of `OpChars`. */
  predicate IsOpChar(c: char)
    ensures IsOpChar(c) ==> c != '.' && c != '_' && c != ' '
  {
    c == '+' || c == '-' || c == '*' || c == '/' || c == '^'
    || c == '(' || c == ')' || c == '%' || c == '!' || c == ','
  }

  type OpSymbol = c: char | IsOpChar(c) witness '+'

  /** A token: a number with its parsed value, a name kept verbatim for later
      resolution, or one operator or punctuation character. */
  datatype Token = NumTok(value: Num) | NameTok(name: string) | OpTok(symbol: OpSymbol)

  /** A number starts at a digit, or at a `.` directly followed by a digit. */
  predicate StartsNumber(s: string, i: nat)
    requires i < |s|
    ensures StartsNumber(s, i) ==> IsNumberChar(s[i]) && !IsLetter(s[i]) && !IsOpChar(s[i]) && s[i] != ' '
    ensures s[i] == '.' && !StartsNumber(s, i) ==> i + 1 == |s| || !IsDigit(s[i + 1])
  {
    IsDigit(s[i]) || (s[i] == '.' && i + 1 < |s| && IsDigit(s[i + 1]))
  }

  /** The scanner can do something with the character at `i`: skip it as a
      space, or begin a number, a name or an operator there. */
  predicate CanStart(s: string, i: nat)
    requires i < |s|
  {
    s[i] == ' ' || StartsNumber(s, i) || IsLetter(s[i]) || IsOpChar(s[i])
  }

  /** Where the greedy run of number characters from `i` ends. */
  function NumberEnd(s: string, i: nat): (j: nat)
    requires i <= |s|
    ensures i <= j <= |s|
    ensures forall k :: i <= k < j ==> IsNumberChar(s[k])
    ensures j == |s| || !IsNumberChar(s[j])
    decreases |s| - i
  {
    if i < |s| && IsNumberChar(s[i]) then NumberEnd(s, i + 1) else i
  }

  /** Where the greedy run of name characters from `i` ends. */
  function NameEnd(s: string, i: nat): (j: nat)
    requires i <= |s|
    ensures i <= j <= |s|
    ensures forall k :: i <= k < j ==> IsNameChar(s[k])
    ensures j == |s| || !IsNameChar(s[j])
    decreases |s| - i
  {
    if i < |s| && IsNameChar(s[i]) then NameEnd(s, i + 1) else i
  }

  /** `ts` followed by the tokens of a scan that may have failed. */
  function Extend(ts: seq<Token>, r: Result<seq<Token>>): Result<seq<Token>>
  {
    match r
    case Ok(us) => Ok(ts + us)
    case Err(e) => Err(e)
  }

  /** The tokens of `s` from position `i` on.  Each token consumes at
      least one character, so there are at most |s| - i of them; the only
      error is `Invalid char`. */
  function LexFrom(s: string, i: nat, parse: string -> Num): (r: Result<seq<Token>>)
    requires i <= |s|
    ensures r.Ok? ==> |r.value| <= |s| - i
    ensures r.Err? ==> r.error.InvalidChar?
    decreases |s| - i
  {
    if i == |s| then Ok([])
    else if s[i] == ' ' then LexFrom(s, i + 1, parse)
    else if StartsNumber(s, i) then
      var j := NumberEnd(s, i + 1);
      Extend([NumTok(parse(s[i..j]))], LexFrom(s, j, parse))
    else if IsLetter(s[i]) then
      var j := NameEnd(s, i + 1);
      Extend([NameTok(s[i..j])], LexFrom(s, j, parse))
    else if IsOpChar(s[i]) then
      Extend([OpTok(s[i])], LexFrom(s, i + 1, parse))
    else
      Err(InvalidChar(s[i]))
  }

  /** The tokens of `s`; `parse` is the host's `parseFloat`.  There are
      never more tokens than characters. */
  function Lex(s: string, parse: string -> Num): (r: Result<seq<Token>>)
    ensures r.Ok? ==> |r.value| <= |s|
    ensures r.Err? ==> r.error.InvalidChar?
  {
    LexFrom(s, 0, parse)
  }

  lemma ExtendExtend(ts: seq<Token>, us: seq<Token>, r: Result<seq<Token>>)
    ensures Extend(ts, Extend(us, r)) == Extend(ts + us, r)
  {
    if r.Ok? {
      assert ts + (us + r.value) == (ts + us) + r.value;
    }
  }

  /** The scan invariant carried over a number run `expr[start..i]`. */
  lemma ScanNumberRun(expr: string, start: nat, i: nat, parse: string -> Num, tokens: seq<Token>)
    requires start < i <= |expr| && StartsNumber(expr, start) && NumberEnd(expr, start + 1) == i
    requires Lex(expr, parse) == Extend(tokens, LexFrom(expr, start, parse))
    ensures Lex(expr, parse) == Extend(tokens + [NumTok(parse(expr[start..i]))], LexFrom(expr, i, parse))
  {
    ExtendExtend(tokens, [NumTok(parse(expr[start..i]))], LexFrom(expr, i, parse));
  }

  /** The scan invariant carried over a name run `expr[start..i]`. */
  lemma ScanNameRun(expr: string, start: nat, i: nat, parse: string -> Num, tokens: seq<Token>)
    requires start < i <= |expr| && IsLetter(expr[start]) && NameEnd(expr, start + 1) == i
    requires Lex(expr, parse) == Extend(tokens, LexFrom(expr, start, parse))
    ensures Lex(expr, parse) == Extend(tokens + [NameTok(expr[start..i])], LexFrom(expr, i, parse))
  {
    assert !StartsNumber(expr, start);
    ExtendExtend(tokens, [NameTok(expr[start..i])], LexFrom(expr, i, parse));
  }

  /** The scan invariant carried over one operator character. */
  lemma ScanOperator(expr: string, i: nat, parse: string -> Num, tokens: seq<Token>)
    requires i < |expr| && IsOpChar(expr[i]) && !StartsNumber(expr, i)
    requires Lex(expr, parse) == Extend(tokens, LexFrom(expr, i, parse))
    ensures Lex(expr, parse) == Extend(tokens + [OpTok(expr[i])], LexFrom(expr, i + 1, parse))
  {
    ExtendExtend(tokens, [OpTok(expr[i])], LexFrom(expr, i + 1, parse));
  }

  /** The inner loop of `tokenize` that consumes a number run: from the
      character at `start` on, greedily over `[0-9.]`. */
  method ReadNumberRun(expr: string, start: nat) returns (s: string, i: nat)
    requires start < |expr|
    ensures i == NumberEnd(expr, start + 1) && s == expr[start..i]
  {
    s := [expr[start]];
    i := start + 1;
    while i < |expr| && IsNumberChar(expr[i])
      invariant start < i <= |expr|
      invariant s == expr[start..i]
      invariant NumberEnd(expr, start + 1) == NumberEnd(expr, i)
      decreases |expr| - i
    {
      s := s + [expr[i]];
      i := i + 1;
    }
  }

  /** The inner loop of `tokenize` that consumes a name: from the letter at
      `start` on, greedily over `[a-zA-Z0-9_]`. */
  method ReadNameRun(expr: string, start: nat) returns (s: string, i: nat)
    requires start < |expr|
    ensures i == NameEnd(expr, start + 1) && s == expr[start..i]
  {
    s := [expr[start]];
    i := start + 1;
    while i < |expr| && IsNameChar(expr[i])
      invariant start < i <= |expr|
      invariant s == expr[start..i]
      invariant NameEnd(expr, start + 1) == NameEnd(expr, i)
      decreases |expr| - i
    {
      s := s + [expr[i]];
      i := i + 1;
    }
  }

  /** `tokenize`: the scanning loop, with the inner loops that consume a
      number run and a name run character by character. */
  method Tokenize(expr: string, parse: string -> Num) returns (res: Result<seq<Token>>)
    ensures res == Lex(expr, parse)
  {
    var tokens: seq<Token> := [];
    var i := 0;
    assert Extend([], Lex(expr, parse)) == Lex(expr, parse) by {
      if Lex(expr, parse).Ok? {
        assert [] + Lex(expr, parse).value == Lex(expr, parse).value;
      }
    }
    while i < |expr|
      invariant i <= |expr|
      invariant Lex(expr, parse) == Extend(tokens, LexFrom(expr, i, parse))
      decreases |expr| - i
    {
      var c := expr[i];
      if c == ' ' {
        assert LexFrom(expr, i, parse) == LexFrom(expr, i + 1, parse);
        i := i + 1;
        continue;
      }
      if IsDigit(c) || (c == '.' && i + 1 < |expr| && IsDigit(expr[i + 1])) {
        var start := i;
        var s;
        s, i := ReadNumberRun(expr, start);
        ScanNumberRun(expr, start, i, parse, tokens);
        tokens := tokens + [NumTok(parse(s))];
        continue;
      }
      if IsLetter(c) {
        var start := i;
        var s;
        s, i := ReadNameRun(expr, start);
        ScanNameRun(expr, start, i, parse, tokens);
        tokens := tokens + [NameTok(s)];
        continue;
      }
      if IsOpChar(c) {
        ScanOperator(expr, i, parse, tokens);
        tokens := tokens + [OpTok(c)];
        i := i + 1;
        continue;
      }
      assert LexFrom(expr, i, parse) == Err(InvalidChar(c));
      return Err(InvalidChar(c));
    }
    assert tokens + [] == tokens;
    res := Ok(tokens);
  }

  /** The operator characters of a string, in order. */
  function OpCharsOf(s: string): seq<char>
  {
    if s == [] then [] else (if IsOpChar(s[0]) then [s[0]] else []) + OpCharsOf(s[1..])
  }

  /** The symbols of the `op` tokens, in order. */
  function OpSymbols(ts: seq<Token>): seq<char>
  {
    if ts == [] then [] else (if ts[0].OpTok? then [ts[0].symbol as char] else []) + OpSymbols(ts[1..])
  }

  lemma OpSymbolsOfCons(t: Token, ts: seq<Token>)
    ensures OpSymbols([t] + ts) == (if t.OpTok? then [t.symbol as char] else []) + OpSymbols(ts)
  {
    assert ([t] + ts)[1..] == ts;
  }

  /** A run of number or name characters holds no operator character. */
  lemma {:induction false} NoOpCharsInRun(s: string, i: nat, j: nat)
    requires i <= j <= |s|
    requires forall k :: i <= k < j ==> IsNameChar(s[k]) || IsNumberChar(s[k])
    ensures OpCharsOf(s[i..]) == OpCharsOf(s[j..])
    decreases j - i
  {
    if i < j {
      assert s[i..][1..] == s[i + 1..];
      assert !IsOpChar(s[i]);
      NoOpCharsInRun(s, i + 1, j);
    }
  }

  /** Every operator character becomes exactly one `op` token, in order of
      appearance: no operator is lost or invented by the scan from `i`. */
  lemma {:induction false} LexFromKeepsOperators(s: string, i: nat, parse: string -> Num)
    requires i <= |s|
    ensures LexFrom(s, i, parse).Ok? ==> OpSymbols(LexFrom(s, i, parse).value) == OpCharsOf(s[i..])
    decreases |s| - i
  {
    if i < |s| {
      assert s[i..][1..] == s[i + 1..];
      if s[i] == ' ' {
        LexFromKeepsOperators(s, i + 1, parse);
      } else if StartsNumber(s, i) {
        var j := NumberEnd(s, i + 1);
        LexFromKeepsOperators(s, j, parse);
        NoOpCharsInRun(s, i, j);
        if LexFrom(s, j, parse).Ok? {
          OpSymbolsOfCons(NumTok(parse(s[i..j])), LexFrom(s, j, parse).value);
        }
      } else if IsLetter(s[i]) {
        var j := NameEnd(s, i + 1);
        LexFromKeepsOperators(s, j, parse);
        NoOpCharsInRun(s, i, j);
        if LexFrom(s, j, parse).Ok? {
          OpSymbolsOfCons(NameTok(s[i..j]), LexFrom(s, j, parse).value);
        }
      } else if IsOpChar(s[i]) {
        LexFromKeepsOperators(s, i + 1, parse);
        if LexFrom(s, i + 1, parse).Ok? {
          OpSymbolsOfCons(OpTok(s[i]), LexFrom(s, i + 1, parse).value);
        }
      }
    }
  }

  /** The `op` tokens of a successful scan are exactly the operator
      characters of the input, in order; each is one of the ten operator characters. */
  lemma LexKeepsOperators(s: string, parse: string -> Num)
    ensures Lex(s, parse).Ok? ==> OpSymbols(Lex(s, parse).value) == OpCharsOf(s)
    ensures Lex(s, parse).Ok? ==> forall c :: c in OpSymbols(Lex(s, parse).value) ==> c in OpChars
  {
    LexFromKeepsOperators(s, 0, parse);
    OpCharsAreOps(s);
  }

  lemma {:induction false} OpCharsAreOps(s: string)
    ensures forall c :: c in OpCharsOf(s) ==> c in OpChars
  {
    if s != [] {
      OpCharsAreOps(s[1..]);
    }
  }

  /** A token read off `s`: a number is the parse of a slice of `s` that
      starts at a digit or at `.` before a digit and runs over `[0-9.]` up
      to the end of that run; a name is a verbatim slice of `s` that starts
      with a letter and runs over `[a-zA-Z0-9_]` up to the end of that run,
      case untouched.  A slice need not start where its run starts: the
      scanner begins a token where the previous one ended
      (`LexRunsStartAfterPrevious`). */
  ghost predicate FromSource(s: string, t: Token, parse: string -> Num)
  {
    match t
    case NumTok(v) =>
      exists i, j :: 0 <= i < j <= |s| && v == parse(s[i..j]) && StartsNumber(s, i)
        && (forall k :: i <= k < j ==> IsNumberChar(s[k]))
        && (j == |s| || !IsNumberChar(s[j]))
    case NameTok(n) =>
      |n| > 0 && IsLetter(n[0]) &&
      exists i, j :: 0 <= i < j <= |s| && s[i..j] == n
        && (j == |s| || !IsNameChar(s[j]))
        && (forall k :: 0 <= k < |n| ==> IsNameChar(n[k]))
    case OpTok(c) => c in s
  }

  /** Every token of a successful scan result is read off `s`. */
  ghost predicate AllFromSource(s: string, r: Result<seq<Token>>, parse: string -> Num)
  {
    r.Ok? ==> forall k :: 0 <= k < |r.value| ==> FromSource(s, r.value[k], parse)
  }

  lemma AllFromSourceCons(s: string, t: Token, r: Result<seq<Token>>, parse: string -> Num)
    requires FromSource(s, t, parse)
    requires AllFromSource(s, r, parse)
    ensures AllFromSource(s, Extend([t], r), parse)
  {
    if r.Ok? {
      var e := Extend([t], r);
      forall k | 0 <= k < |e.value|
        ensures FromSource(s, e.value[k], parse)
      {
        if k > 0 {
          assert e.value[k] == r.value[k - 1];
        }
      }
    }
  }

  lemma NumberFromSource(s: string, i: nat, parse: string -> Num)
    requires i < |s| && StartsNumber(s, i)
    ensures FromSource(s, NumTok(parse(s[i..NumberEnd(s, i + 1)])), parse)
  {
    var j := NumberEnd(s, i + 1);
    assert IsNumberChar(s[i]);
    assert forall k :: i <= k < j ==> IsNumberChar(s[k]);
  }

  lemma NameFromSource(s: string, i: nat, parse: string -> Num)
    requires i < |s| && IsLetter(s[i])
    ensures FromSource(s, NameTok(s[i..NameEnd(s, i + 1)]), parse)
  {
    var j := NameEnd(s, i + 1);
    var n := s[i..j];
    assert forall k :: 0 <= k < |n| ==> n[k] == s[i + k];
    assert IsNameChar(s[i]);
    assert forall k :: 0 <= k < |n| ==> IsNameChar(n[k]);
    assert 0 <= i < j <= |s| && s[i..j] == n && (j == |s| || !IsNameChar(s[j]));
  }

  lemma {:induction false} LexFromTokensFromSource(s: string, i: nat, parse: string -> Num)
    requires i <= |s|
    ensures AllFromSource(s, LexFrom(s, i, parse), parse)
    decreases |s| - i
  {
    if i < |s| {
      if s[i] == ' ' {
        LexFromTokensFromSource(s, i + 1, parse);
      } else if StartsNumber(s, i) {
        var j := NumberEnd(s, i + 1);
        LexFromTokensFromSource(s, j, parse);
        NumberFromSource(s, i, parse);
        AllFromSourceCons(s, NumTok(parse(s[i..j])), LexFrom(s, j, parse), parse);
      } else if IsLetter(s[i]) {
        var j := NameEnd(s, i + 1);
        var rest := LexFrom(s, j, parse);
        LexFromTokensFromSource(s, j, parse);
        NameFromSource(s, i, parse);
        AllFromSourceCons(s, NameTok(s[i..j]), rest, parse);
      } else if IsOpChar(s[i]) {
        var rest := LexFrom(s, i + 1, parse);
        LexFromTokensFromSource(s, i + 1, parse);
        assert s[i] in s;
        AllFromSourceCons(s, OpTok(s[i]), rest, parse);
      }
    }
  }

  /** Every token of a successful scan is read off the input as
      `FromSource` describes. */
  lemma LexTokensFromSource(s: string, parse: string -> Num)
    ensures Lex(s, parse).Ok? ==>
      forall k :: 0 <= k < |Lex(s, parse).value| ==> FromSource(s, Lex(s, parse).value[k], parse)
  {
    LexFromTokensFromSource(s, 0, parse);
  }

  /** The characters the scanner accepts anywhere in an input. */
  predicate InAlphabet(c: char)
  {
    c == ' ' || IsNameChar(c) || c == '.' || IsOpChar(c)
  }

  /** Where the scan resumes after handling the character at `i`: past a
      space or an operator, or at the end of the number or name run. */
  function Next(s: string, i: nat): (j: nat)
    requires i < |s| && CanStart(s, i)
    ensures i < j <= |s|
    ensures s[i] == ' ' || IsOpChar(s[i]) ==> j == i + 1
  {
    if s[i] == ' ' then i + 1
    else if StartsNumber(s, i) then NumberEnd(s, i + 1)
    else if IsLetter(s[i]) then NameEnd(s, i + 1)
    else i + 1
  }

  /** The scan, started at `i`, reaches position `k`: it passes only
      positions it can handle, jumping from each to the next. */
  predicate Visits(s: string, i: nat, k: nat)
    requires i <= k < |s|
    decreases k - i
  {
    i == k || (CanStart(s, i) && Next(s, i) <= k && Visits(s, Next(s, i), k))
  }

  lemma {:induction false} LexFromOutcome(s: string, i: nat, parse: string -> Num)
    requires i <= |s|
    ensures var r := LexFrom(s, i, parse);
      && (r.Ok? ==> forall k :: i <= k < |s| ==> InAlphabet(s[k]))
      && (r.Err? ==> (r.error.InvalidChar? &&
            exists k :: i <= k < |s| && Visits(s, i, k) && s[k] == r.error.c && !CanStart(s, k)))
    decreases |s| - i
  {
    var r := LexFrom(s, i, parse);
    if i < |s| {
      if CanStart(s, i) {
        var j := Next(s, i);
        LexFromOutcome(s, j, parse);
        if r.Err? {
          var k :| j <= k < |s| && Visits(s, j, k) && s[k] == r.error.c && !CanStart(s, k);
          assert Visits(s, i, k);
        }
      } else {
        assert Visits(s, i, i);
      }
    }
  }

  /** A scan from `i` that reaches a position where no token can start
      fails there, with `Invalid char` for that character. */
  lemma {:induction false} LexFromFailsWhereStuck(s: string, i: nat, k: nat, parse: string -> Num)
    requires i <= k < |s| && Visits(s, i, k) && !CanStart(s, k)
    ensures LexFrom(s, i, parse) == Err(InvalidChar(s[k]))
    decreases k - i
  {
    if i < k {
      LexFromFailsWhereStuck(s, Next(s, i), k, parse);
    }
  }

  /** `tokenize` throws exactly when the scan reaches a character it cannot
      handle: on success every character is a space, a name character, `.`
      or an operator; it fails exactly when the scan reaches a character
      that is neither a space, nor a digit or a `.` before a digit, nor a
      letter, nor an operator, and the error names such a character; an
      input holding a character outside that alphabet is always rejected. */
  lemma LexErrors(s: string, parse: string -> Num)
    ensures Lex(s, parse).Ok? ==> forall k :: 0 <= k < |s| ==> InAlphabet(s[k])
    ensures Lex(s, parse).Err? <==> exists k :: 0 <= k < |s| && Visits(s, 0, k) && !CanStart(s, k)
    ensures Lex(s, parse).Err? ==> (Lex(s, parse).error.InvalidChar? &&
      exists k :: 0 <= k < |s| && Visits(s, 0, k) && s[k] == Lex(s, parse).error.c && !CanStart(s, k))
    ensures (exists k :: 0 <= k < |s| && !InAlphabet(s[k])) ==> Lex(s, parse).Err?
  {
    LexFromOutcome(s, 0, parse);
    if exists k :: 0 <= k < |s| && Visits(s, 0, k) && !CanStart(s, k) {
      var k :| 0 <= k < |s| && Visits(s, 0, k) && !CanStart(s, k);
      LexFailsWhereStuck(s, k, parse);
    }
  }

  /** Once the scan from the start reaches a position where no token can
      start, `tokenize` throws `Invalid char` for that character, whatever
      it scanned before. */
  lemma LexFailsWhereStuck(s: string, k: nat, parse: string -> Num)
    requires k < |s| && Visits(s, 0, k) && !CanStart(s, k)
    ensures Lex(s, parse) == Err(InvalidChar(s[k]))
  {
    LexFromFailsWhereStuck(s, 0, k, parse);
  }

  /** A `_` inside a name is never reached by the scan, so it does not
      fail there: in `a_ _` the scan goes from the name `a_` to the space
      and stops at the last `_`. */
  lemma UnderscoreInsideName()
    ensures !Visits("a_ _", 0, 1) && Visits("a_ _", 0, 3)
  {
    assert Next("a_ _", 0) == 2 by {
      assert NameEnd("a_ _", 1) == NameEnd("a_ _", 2) == 2;
    }
    assert Next("a_ _", 2) == 3;
    assert Visits("a_ _", 3, 3);
    assert Visits("a_ _", 2, 3);
  }

  /** Tokens start where the previous token ended, not at the start of a
      run: in `a1.5` the name `a1` stops at the `.`, which then begins the
      number `.5` right after the digit `1`; in `2x` the number stops at the
      letter, which begins a name right after the digit `2`. */
  lemma LexRunsStartAfterPrevious(parse: string -> Num)
    ensures Lex("a1.5", parse) == Ok([NameTok("a1"), NumTok(parse(".5"))])
    ensures Lex("2x", parse) == Ok([NumTok(parse("2")), NameTok("x")])
  {
    var s := "a1.5";
    assert NumberEnd(s, 3) == 4;
    assert s[2..4] == ".5";
    assert LexFrom(s, 4, parse) == Ok([]);
    assert StartsNumber(s, 2);
    LexNumberStep(s, 2, 4, parse, []);
    assert [NumTok(parse(".5"))] + [] == [NumTok(parse(".5"))];
    assert NameEnd(s, 1) == 2;
    assert s[0..2] == "a1";
    assert !StartsNumber(s, 0) && IsLetter(s[0]);
    assert LexFrom(s, 0, parse) == Extend([NameTok(s[0..2])], LexFrom(s, 2, parse));
    assert [NameTok("a1")] + [NumTok(parse(".5"))] == [NameTok("a1"), NumTok(parse(".5"))];

    var t := "2x";
    assert NameEnd(t, 2) == 2;
    assert t[1..2] == "x";
    assert LexFrom(t, 2, parse) == Ok([]);
    assert !StartsNumber(t, 1) && IsLetter(t[1]);
    assert LexFrom(t, 1, parse) == Extend([NameTok(t[1..2])], LexFrom(t, 2, parse));
    assert [NameTok("x")] + [] == [NameTok("x")];
    assert NumberEnd(t, 1) == 1;
    assert t[0..1] == "2";
    LexNumberStep(t, 0, 1, parse, [NameTok("x")]);
    assert [NumTok(parse("2"))] + [NameTok("x")] == [NumTok(parse("2")), NameTok("x")];
  }

  /** A leading `_`, and a `.` that no digit follows, are errors; a `.`
      before a digit starts a number; `1.2.3` is one number run, handed
      whole to `parseFloat`. */
  lemma LexEdgeCases(parse: string -> Num)
    ensures Lex("_x", parse) == Err(InvalidChar('_'))
    ensures Lex(".", parse) == Err(InvalidChar('.'))
    ensures Lex("2+.", parse) == Err(InvalidChar('.'))
    ensures Lex(".5", parse) == Ok([NumTok(parse(".5"))])
    ensures Lex("1.2.3", parse) == Ok([NumTok(parse("1.2.3"))])
    ensures Lex("Sin x2_", parse) == Ok([NameTok("Sin"), NameTok("x2_")])
  {
    LexEdgeFailures(parse);
    LexNumberLiteral(".5", parse);
    LexNumberLiteral("1.2.3", parse);
    LexTwoNames(parse);
  }

  /** A leading `_`, a lone `.` and a `.` at the end fail where they stand. */
  lemma LexEdgeFailures(parse: string -> Num)
    ensures Lex("_x", parse) == Err(InvalidChar('_'))
    ensures Lex(".", parse) == Err(InvalidChar('.'))
    ensures Lex("2+.", parse) == Err(InvalidChar('.'))
  {
    assert !StartsNumber("2+.", 2);
    assert LexFrom("2+.", 2, parse) == Err(InvalidChar('.'));
    assert NumberEnd("2+.", 1) == 1;
  }

  /** Names keep their case and end at the space. */
  lemma LexTwoNames(parse: string -> Num)
    ensures Lex("Sin x2_", parse) == Ok([NameTok("Sin"), NameTok("x2_")])
  {
    var s := "Sin x2_";
    assert NameEnd(s, 1) == 3;
    assert NameEnd(s, 5) == 7;
    assert s[0..3] == "Sin";
    assert s[4..7] == "x2_";
    assert LexFrom(s, 7, parse) == Ok([]);
    assert s[4] == 'x' && IsLetter(s[4]) && !StartsNumber(s, 4);
    assert [NameTok("x2_")] + [] == [NameTok("x2_")];
    assert LexFrom(s, 4, parse) == Extend([NameTok(s[4..7])], LexFrom(s, 7, parse));
    assert LexFrom(s, 4, parse) == Ok([NameTok("x2_")]);
    assert LexFrom(s, 3, parse) == Ok([NameTok("x2_")]);
    assert [NameTok("Sin")] + [NameTok("x2_")] == [NameTok("Sin"), NameTok("x2_")];
    assert s[0] == 'S' && IsLetter(s[0]) && !StartsNumber(s, 0);
    assert LexFrom(s, 0, parse) == Extend([NameTok(s[0..3])], LexFrom(s, 3, parse));
  }

  /** One scanning step at an operator character. */
  lemma LexOpStep(s: string, i: nat, parse: string -> Num, rest: seq<Token>)
    requires i < |s| && IsOpChar(s[i]) && LexFrom(s, i + 1, parse) == Ok(rest)
    ensures LexFrom(s, i, parse) == Ok([OpTok(s[i])] + rest)
  {
  }

  /** One scanning step at the start of a number ending at `j`. */
  lemma LexNumberStep(s: string, i: nat, j: nat, parse: string -> Num, rest: seq<Token>)
    requires i < |s| && StartsNumber(s, i) && NumberEnd(s, i + 1) == j
    requires LexFrom(s, j, parse) == Ok(rest)
    ensures LexFrom(s, i, parse) == Ok([NumTok(parse(s[i..j]))] + rest)
  {
  }

  /** A whole number literal is a single `num` token. */
  lemma LexNumberLiteral(s: string, parse: string -> Num)
    requires |s| > 0 && StartsNumber(s, 0)
    requires forall k :: 0 <= k < |s| ==> IsNumberChar(s[k])
    ensures Lex(s, parse) == Ok([NumTok(parse(s))])
  {
    assert NumberEnd(s, 1) == |s|;
    assert s[0..|s|] == s;
    assert LexFrom(s, |s|, parse) == Ok([]);
    assert [NumTok(parse(s))] + [] == [NumTok(parse(s))];
  }

  /** A lone identifier is a single `name` token. */
  lemma LexNameLiteral(s: string, parse: string -> Num)
    requires |s| > 0 && IsLetter(s[0])
    requires forall k :: 0 <= k < |s| ==> IsNameChar(s[k])
    ensures Lex(s, parse) == Ok([NameTok(s)])
  {
    assert NameEnd(s, 1) == |s|;
    assert s[0..|s|] == s;
    assert LexFrom(s, |s|, parse) == Ok([]);
    assert [NameTok(s)] + [] == [NameTok(s)];
  }
}
