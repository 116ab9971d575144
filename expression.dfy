/** `evaluateExpression`: whitespace removal, the character whitelist, the
    whole-input `nPr(a,b)` / `nCr(a,b)` pre-pass with recursive evaluation
    of the two arguments, and otherwise tokenize, convert and evaluate; plus
    the `=` handler's finiteness check on the result. */
module Expression {
  import opened Operators
  import opened Host
  import opened Lexer
  import opened Shunting
  import opened Evaluator
  import opened Combinatorics

  /** A character of the JavaScript regular-expression class `\s`. */
  predicate IsJsSpace(c: char)
    ensures c == ' ' || c == '\t' || c == '\n' || c == '\r' ==> IsJsSpace(c)
    ensures IsJsSpace(c) ==> !IsNameChar(c) && !IsOpChar(c) && c != '.'
  {
    var n := c as int;
    (9 <= n <= 13) || n == 32 || n == 0xA0 || n == 0x1680 || (0x2000 <= n <= 0x200A)
    || n == 0x2028 || n == 0x2029 || n == 0x202F || n == 0x205F || n == 0x3000 || n == 0xFEFF
  }

  /** `expr.replace(/\s+/g, '')`. */
  function StripWhitespace(s: string): (r: string)
    ensures |r| <= |s|
    ensures forall k :: 0 <= k < |r| ==> !IsJsSpace(r[k])
    decreases |s|
  {
    if s == [] then [] else (if IsJsSpace(s[0]) then [] else [s[0]]) + StripWhitespace(s[1..])
  }

  /** Removing whitespace keeps every other character in order: it is the
      identity on text without whitespace, distributes over concatenation
      and is idempotent. */
  lemma {:induction false} StripNoSpace(s: string)
    requires forall k :: 0 <= k < |s| ==> !IsJsSpace(s[k])
    ensures StripWhitespace(s) == s
    decreases |s|
  {
    if s != [] {
      StripNoSpace(s[1..]);
      assert [s[0]] + s[1..] == s;
    }
  }

  lemma {:induction false} StripAppend(a: string, b: string)
    ensures StripWhitespace(a + b) == StripWhitespace(a) + StripWhitespace(b)
    decreases |a|
  {
    if a == [] {
      assert a + b == b;
    } else {
      assert (a + b)[0] == a[0] && (a + b)[1..] == a[1..] + b;
      StripAppend(a[1..], b);
    }
  }

  lemma StripIdempotent(s: string)
    ensures StripWhitespace(StripWhitespace(s)) == StripWhitespace(s)
  {
    StripNoSpace(StripWhitespace(s));
  }

  /** The characters `/^[0-9a-zA-Z_+\-*\/^()%!,.]*$/` admits. */
  predicate Allowed(c: char)
    ensures Allowed(c) <==> InAlphabet(c) && c != ' '
    ensures Allowed(c) ==> !IsJsSpace(c)
  {
    IsDigit(c) || IsLetter(c) || c == '_' || c == '.' || (IsOpChar(c) && c != ' ')
  }

  /** The whitelist admits exactly the tokenizer's alphabet without the
      space, so on whitelisted text the tokenizer can only fail at a `_` or
      at a `.` that no digit follows. */
  predicate Whitelisted(s: string)
    ensures Whitelisted(s) <==> forall k :: 0 <= k < |s| ==> InAlphabet(s[k]) && s[k] != ' '
  {
    forall k :: 0 <= k < |s| ==> Allowed(s[k])
  }

  /** The first index of `c` in `s`, or `|s|`. */
  function IndexOf(s: string, c: char): (k: nat)
    ensures k <= |s| && (k < |s| ==> s[k] == c)
    ensures forall j :: 0 <= j < k ==> s[j] != c
    decreases |s|
  {
    if s == [] then 0 else if s[0] == c then 0 else 1 + IndexOf(s[1..], c)
  }

  /** The two arguments the pre-pass can split a call into: the first has
      no comma, the second no `)`, and neither is empty. */
  predicate CallArguments(a: string, b: string)
  {
    a != [] && b != [] && (forall k :: 0 <= k < |a| ==> a[k] != ',')
    && (forall k :: 0 <= k < |b| ==> b[k] != ')')
  }

  /** `h.match(/^name\(([^,]+),([^\)]+)\)$/)`: the two captured groups. */
  function MatchCall(name: string, h: string): (r: Option<(string, string)>)
    ensures r.Some? ==> h == name + "(" + r.value.0 + "," + r.value.1 + ")"
    ensures r.Some? ==> CallArguments(r.value.0, r.value.1)
  {
    var head := name + "(";
    if |h| < |head| || h[..|head|] != head then None
    else
      var body := h[|head|..];
      var c := IndexOf(body, ',');
      if c == 0 || c == |body| then None
      else
        var rest := body[c + 1..];
        if |rest| < 2 || Last(rest) != ')' then None
        else
          var a, b := body[..c], DropLast(rest);
          if exists k :: 0 <= k < |b| && b[k] == ')' then None
          else
            SplitCallBody(body, c);
            assert h == head + body;
            CallConcat(name, a, b, body, h);
            Some((a, b))
  }

  lemma CallConcat(name: string, a: string, b: string, body: string, h: string)
    requires body == a + "," + b + ")" && h == name + "(" + body
    ensures h == name + "(" + a + "," + b + ")"
  {
    calc {
      h;
      name + "(" + (((a + ",") + b) + ")");
      ((name + "(") + ((a + ",") + b)) + ")";
      (((name + "(") + (a + ",")) + b) + ")";
      name + "(" + a + "," + b + ")";
    }
  }

  /** A call body cut at its comma and before its final `)`. */
  lemma SplitCallBody(body: string, c: nat)
    requires 0 < c < |body| && body[c] == ',' && |body[c + 1..]| >= 2 && Last(body[c + 1..]) == ')'
    ensures body == body[..c] + "," + DropLast(body[c + 1..]) + ")"
  {
    var rest := body[c + 1..];
    assert rest == DropLast(rest) + [')'];
    assert body == body[..c] + [','] + rest;
  }

  /** A match starts with the function name. */
  lemma MatchCallHead(name: string, h: string)
    ensures MatchCall(name, h).Some? ==> |name| < |h| && forall i :: 0 <= i < |name| ==> h[i] == name[i]
  {
  }

  /** The match is exact: every split of `h` into `name(a,b)` with
      `CallArguments(a, b)` is the one `MatchCall` finds, so the pre-pass
      fires exactly on such inputs. */
  lemma MatchCallComplete(name: string, h: string, a: string, b: string)
    requires h == name + "(" + a + "," + b + ")" && CallArguments(a, b)
    ensures MatchCall(name, h) == Some((a, b))
  {
    var head := name + "(";
    assert h[..|head|] == head;
    var body := h[|head|..];
    assert body == a + "," + b + ")";
    assert body[|a|] == ',';
    var c := IndexOf(body, ',');
    assert c == |a| by {
      assert forall j :: 0 <= j < |a| ==> body[j] == a[j];
    }
    assert body[..c] == a;
    var rest := body[c + 1..];
    assert rest == b + ")";
    assert DropLast(rest) == b;
  }

  /** The two counting functions the pre-pass recognises. */
  datatype Counting = Perm | Comb

  /** `nPr` or `nCr` on the values of the two arguments. */
  function Count(k: Counting, n: Value, r: Value): (c: Result<Num>)
    ensures c.Ok? <==> InRange(n, r) && IsNat(RealOf(n)) && IsNat(RealOf(r))
    ensures c.Ok? ==> AsNat(RealOf(r)) <= AsNat(RealOf(n)) && c.value == Finite(
      (if k == Perm then Permutations(AsNat(RealOf(n)), AsNat(RealOf(r)))
       else Combinations(AsNat(RealOf(n)), AsNat(RealOf(r)))) as real)
    ensures c.Err? ==> (c.error in
      (if k == Perm then {NPrInvalid, NPrRange, FactorialNeedsInteger}
       else {NCrInvalid, NCrRange, FactorialNeedsInteger}))
  {
    match k
    case Perm => NPrOf(n, r)
    case Comb => NCrOf(n, r)
  }

  function CallName(k: Counting): string
  {
    match k
    case Perm => "nPr"
    case Comb => "nCr"
  }

  /** The pre-pass: the `nPr` pattern is tried first, then the `nCr` one;
      it fires exactly when the whole text is such a call. */
  function PrePass(h: string): (r: Option<(Counting, string, string)>)
    ensures r.Some? ==> h == CallName(r.value.0) + "(" + r.value.1 + "," + r.value.2 + ")"
    ensures r.Some? ==> CallArguments(r.value.1, r.value.2)
    ensures r.Some? ==> (r.value.0 == Perm <==> MatchCall("nPr", h).Some?)
    ensures r.None? ==> MatchCall("nPr", h).None? && MatchCall("nCr", h).None?
  {
    match MatchCall("nPr", h)
    case Some((a, b)) => Some((Perm, a, b))
    case None =>
      match MatchCall("nCr", h)
      case Some((a, b)) => Some((Comb, a, b))
      case None => None
  }

  /** `evalRPN(toRPN(tokenize(handled)))`: a number or `undefined`. */
  function Pipeline(h: string, env: Env): (r: Result<Value>)
    ensures r.Ok? ==> r.value.Number? || r.value.Undefined?
  {
    match Lex(h, env.parseFloat)
    case Err(e) => Err(e)
    case Ok(tokens) =>
      match Shunt(tokens)
      case Err(e) => Err(e)
      case Ok(rpn) =>
        EvalResultKind(rpn, env);
        Eval(rpn, env)
  }

  /** `evaluateExpression`. `Ok(EmptyString)` is the `''` returned for a
      blank input; every other result is a number or `undefined`. */
  function EvaluateExpression(expr: string, env: Env): (r: Result<Value>)
    ensures r == Ok(EmptyString) <==> StripWhitespace(expr) == []
    ensures r.Ok? ==> r.value.Number? || r.value.Undefined? || r.value.EmptyString?
    decreases |expr|, 1
  {
    EvaluateHandled(StripWhitespace(expr), env)
  }

  /** `evaluateExpression` once `handled`, the input without whitespace, is
      known. */
  function EvaluateHandled(h: string, env: Env): (r: Result<Value>)
    ensures r == Ok(EmptyString) <==> h == []
    ensures r.Ok? ==> r.value.Number? || r.value.Undefined? || r.value.EmptyString?
    decreases |h|, 0
  {
    if h == [] then Ok(EmptyString)
    else if !Whitelisted(h) then Err(InvalidCharacters)
    else match PrePass(h)
      case Some((k, a, b)) =>
        (match EvaluateExpression(a, env)
         case Err(e) => Err(e)
         case Ok(n) =>
           match EvaluateExpression(b, env)
           case Err(e) => Err(e)
           case Ok(r) =>
             match Count(k, n, r)
             case Err(e) => Err(e)
             case Ok(v) => Ok(Number(v)))
      case None => Pipeline(h, env)
  }

  /** `evaluateExpression` run through the imperative tokenizer, converter
      and evaluator. */
  method Evaluate(expr: string, env: Env) returns (res: Result<Value>)
    ensures res == EvaluateExpression(expr, env)
    decreases |expr|
  {
    var h := StripWhitespace(expr);
    if h == [] {
      return Ok(EmptyString);
    }
    if !Whitelisted(h) {
      return Err(InvalidCharacters);
    }
    var npr := MatchCall("nPr", h);
    var ncr := MatchCall("nCr", h);
    if npr.Some? || ncr.Some? {
      var (a, b) := if npr.Some? then npr.value else ncr.value;
      var n := Evaluate(a, env);
      if n.Err? {
        return n;
      }
      var r := Evaluate(b, env);
      if r.Err? {
        return r;
      }
      var v := if npr.Some? then NPrOf(n.value, r.value) else NCrOf(n.value, r.value);
      if v.Err? {
        return Err(v.error);
      }
      return Ok(Number(v.value));
    }
    var tokens := Tokenize(h, env.parseFloat);
    if tokens.Err? {
      return Err(tokens.error);
    }
    var rpn := ToRPN(tokens.value);
    if rpn.Err? {
      return Err(rpn.error);
    }
    res := EvalRPN(rpn.value, env);
  }

  /** The `=` handler: the result must be a finite number (`Number.isFinite`
      rejects `''`, `undefined` and NaN alike); it becomes the new `Ans`. */
  function Equals(expr: string, env: Env): (r: Result<Num>)
    ensures r.Ok? ==> r.value.Finite?
    ensures r.Ok? <==> EvaluateExpression(expr, env).Ok? && IsFiniteValue(EvaluateExpression(expr, env).value)
    ensures r.Ok? ==> EvaluateExpression(expr, env) == Ok(Number(r.value))
  {
    match EvaluateExpression(expr, env)
    case Err(e) => Err(e)
    case Ok(v) => if IsFiniteValue(v) then Ok(v.num) else Err(ResultNotFinite)
  }

  // ---------------------------------------------------------------------
  // Properties of evaluateExpression

  /** Whitespace never matters, wherever it stands. */
  lemma WhitespaceInsensitive(expr: string, env: Env)
    ensures EvaluateExpression(expr, env) == EvaluateExpression(StripWhitespace(expr), env)
  {
    StripIdempotent(expr);
  }

  lemma SpaceAnywhere(a: string, c: char, b: string, env: Env)
    requires IsJsSpace(c)
    ensures EvaluateExpression(a + [c] + b, env) == EvaluateExpression(a + b, env)
  {
    StripAppend(a + [c], b);
    StripAppend(a, [c]);
    StripAppend(a, b);
    assert StripWhitespace([c]) == [] by {
      assert [c][1..] == [];
    }
    assert StripWhitespace(a) + [] == StripWhitespace(a);
  }

  /** The arguments the pre-pass evaluates are already stripped and
      whitelisted, since they are slices of the stripped, whitelisted input. */
  lemma ArgumentsClean(name: string, h: string, a: string, b: string)
    requires h == name + "(" + a + "," + b + ")"
    requires Whitelisted(h) && forall k :: 0 <= k < |h| ==> !IsJsSpace(h[k])
    ensures Whitelisted(a) && StripWhitespace(a) == a
    ensures Whitelisted(b) && StripWhitespace(b) == b
  {
    var i := |name| + 1;
    assert forall k :: 0 <= k < |a| ==> a[k] == h[i + k];
    var j := i + |a| + 1;
    assert forall k :: 0 <= k < |b| ==> b[k] == h[j + k];
    StripNoSpace(a);
    StripNoSpace(b);
  }

  /** `Invalid characters` is thrown exactly when the stripped input has a
      character outside the whitelist: no later stage, and no recursive
      evaluation of a pre-pass argument, throws it. */
  lemma {:induction false} InvalidCharactersExactly(expr: string, env: Env)
    ensures EvaluateExpression(expr, env) == Err(InvalidCharacters) <==> !Whitelisted(StripWhitespace(expr))
    decreases |expr|
  {
    var h := StripWhitespace(expr);
    if h != [] && Whitelisted(h) {
      var m := PrePass(h);
      if m.Some? {
        var (k, a, b) := m.value;
        ArgumentsClean(CallName(k), h, a, b);
        InvalidCharactersExactly(a, env);
        InvalidCharactersExactly(b, env);
      } else {
        PipelineNeverInvalidCharacters(h, env);
      }
    }
  }

  /** No stage after the whitelist reports `Invalid characters`. */
  lemma PipelineNeverInvalidCharacters(h: string, env: Env)
    ensures Pipeline(h, env) != Err(InvalidCharacters)
  {
    LexErrors(h, env.parseFloat);
    var lexed := Lex(h, env.parseFloat);
    if lexed.Ok? {
      ShuntErrors(lexed.value);
      if Shunt(lexed.value).Ok? {
        EvalErrors(Shunt(lexed.value).value, env);
      }
    }
  }

  /** A number literal evaluates to what `parseFloat` makes of it. */
  lemma NumberLiteral(s: string, env: Env)
    requires |s| > 0 && StartsNumber(s, 0)
    requires forall k :: 0 <= k < |s| ==> IsNumberChar(s[k])
    ensures EvaluateExpression(s, env) == Ok(Number(env.parseFloat(s)))
  {
    StripNoSpace(s);
    assert PrePass(s).None? by {
      assert s[0] != 'n';
    }
    LexNumberLiteral(s, env.parseFloat);
    var v := env.parseFloat(s);
    Shunting.OperandStep([NumTok(v)], 0, [], [], [RNum(v)]);
    Shunting.Finishes([NumTok(v)], [RNum(v)], [], Ok([RNum(v)]));
    Evaluator.Advance([RNum(v)], 0, [], [Number(v)], env);
  }

  /** A counting call: the value of `nPr(a,b)` / `nCr(a,b)` is the count
      over the values of `a` and `b`, and a failing argument fails it. */
  lemma CountingCall(h: string, k: Counting, a: string, b: string, env: Env)
    requires h == CallName(k) + "(" + a + "," + b + ")" && CallArguments(a, b)
    requires Whitelisted(h) && forall i :: 0 <= i < |h| ==> !IsJsSpace(h[i])
    requires k == Comb ==> MatchCall("nPr", h).None?
    ensures EvaluateExpression(a, env).Err? ==> EvaluateExpression(h, env) == EvaluateExpression(a, env)
    ensures EvaluateExpression(a, env).Ok? && EvaluateExpression(b, env).Err? ==>
      EvaluateExpression(h, env) == EvaluateExpression(b, env)
    ensures EvaluateExpression(a, env).Ok? && EvaluateExpression(b, env).Ok? ==>
      var c := Count(k, EvaluateExpression(a, env).value, EvaluateExpression(b, env).value);
      EvaluateExpression(h, env) == if c.Ok? then Ok(Number(c.value)) else Err(c.error)
  {
    StripNoSpace(h);
    MatchCallComplete(CallName(k), h, a, b);
    assert PrePass(h) == Some((k, a, b));
  }

  lemma CountingCallOk(h: string, k: Counting, a: string, b: string, n: Value, r: Value, v: Num, env: Env)
    requires h == CallName(k) + "(" + a + "," + b + ")" && CallArguments(a, b)
    requires Whitelisted(h) && forall i :: 0 <= i < |h| ==> !IsJsSpace(h[i])
    requires k == Comb ==> MatchCall("nPr", h).None?
    requires EvaluateExpression(a, env) == Ok(n) && EvaluateExpression(b, env) == Ok(r)
    requires Count(k, n, r) == Ok(v)
    ensures EvaluateExpression(h, env) == Ok(Number(v))
  {
    CountingCall(h, k, a, b, env);
  }

  lemma PrePassExamples()
    ensures PrePass("nPr(5,2)") == Some((Perm, "5", "2"))
    ensures PrePass("nCr(5,2)") == Some((Comb, "5", "2"))
    ensures PrePass("nCr(5,7)") == Some((Comb, "5", "7"))
  {
    DigitCallSplit(Perm, '5', '2');
    DigitCallSplit(Comb, '5', '2');
    DigitCallSplit(Comb, '5', '7');
  }

  /** The pre-pass splits a counting call on two digits at its comma. */
  lemma DigitCallSplit(k: Counting, x: char, y: char)
    requires IsDigit(x) && IsDigit(y)
    ensures PrePass(DigitCallString(k, x, y)) == Some((k, [x], [y]))
  {
    DigitCallText(k, x, y);
    MatchCallComplete(CallName(k), DigitCallString(k, x, y), [x], [y]);
  }

  lemma PermFiveTwo()
    ensures NPrOf(Number(Finite(5.0)), Number(Finite(2.0))) == Ok(Finite(20.0))
  {
    assert AsNat(5.0) == 5 && AsNat(2.0) == 2;
    assert Fact(3) == 6;
    assert Fact(5) == 120;
    assert Permutations(5, 2) == 20;
  }

  lemma CombFiveTwo()
    ensures NCrOf(Number(Finite(5.0)), Number(Finite(2.0))) == Ok(Finite(10.0))
  {
    assert AsNat(5.0) == 5 && AsNat(2.0) == 2;
    assert Fact(2) == 2 && Fact(3) == 6;
    assert Fact(5) == 120;
    assert Combinations(5, 2) == 10;
  }

  /** The text `nPr(x,y)` or `nCr(x,y)`. */
  function DigitCallString(k: Counting, x: char, y: char): string
  {
    match k
    case Perm => ['n', 'P', 'r', '(', x, ',', y, ')']
    case Comb => ['n', 'C', 'r', '(', x, ',', y, ')']
  }

  /** A counting call on two single digits evaluates to the count over the
      digits' parsed values; `nCr(x,y)` is never taken for `nPr`. */
  lemma DigitCall(k: Counting, x: char, y: char, env: Env)
    requires IsDigit(x) && IsDigit(y)
    ensures var c := Count(k, Number(env.parseFloat([x])), Number(env.parseFloat([y])));
      EvaluateExpression(DigitCallString(k, x, y), env)
        == if c.Ok? then Ok(Number(c.value)) else Err(c.error)
  {
    DigitCallText(k, x, y);
    NumberLiteral([x], env);
    NumberLiteral([y], env);
    CountingCall(DigitCallString(k, x, y), k, [x], [y], env);
  }

  lemma DigitCallText(k: Counting, x: char, y: char)
    requires IsDigit(x) && IsDigit(y)
    ensures var h := DigitCallString(k, x, y);
      && h == CallName(k) + "(" + [x] + "," + [y] + ")"
      && CallArguments([x], [y])
      && Whitelisted(h) && (forall i :: 0 <= i < |h| ==> !IsJsSpace(h[i]))
      && (k == Comb ==> MatchCall("nPr", h).None?)
  {
    var h := DigitCallString(k, x, y);
    if k == Comb {
      MatchCallHead("nPr", h);
      assert h[1] != "nPr"[1];
    }
  }

  /** `nPr(5,2)` is 20: the pre-pass evaluates both arguments and counts the
      ordered selections. */
  lemma PermutationsOfFiveTwo(env: Env)
    requires env.parseFloat("5") == Finite(5.0) && env.parseFloat("2") == Finite(2.0)
    ensures EvaluateExpression("nPr(5,2)", env) == Ok(Number(Finite(20.0)))
  {
    DigitCall(Perm, '5', '2', env);
    assert DigitCallString(Perm, '5', '2') == "nPr(5,2)";
    PermFiveTwo();
  }

  /** `nCr(5,2)` is 10. */
  lemma CombinationsOfFiveTwo(env: Env)
    requires env.parseFloat("5") == Finite(5.0) && env.parseFloat("2") == Finite(2.0)
    ensures EvaluateExpression("nCr(5,2)", env) == Ok(Number(Finite(10.0)))
  {
    DigitCall(Comb, '5', '2', env);
    assert DigitCallString(Comb, '5', '2') == "nCr(5,2)";
    CombFiveTwo();
  }

  /** `nCr(5,7)` is out of range. */
  lemma CombinationsOutOfRange(env: Env)
    requires env.parseFloat("5") == Finite(5.0) && env.parseFloat("7") == Finite(7.0)
    ensures EvaluateExpression("nCr(5,7)", env) == Err(NCrRange)
  {
    DigitCall(Comb, '5', '7', env);
    assert DigitCallString(Comb, '5', '7') == "nCr(5,7)";
    assert NCrOf(Number(Finite(5.0)), Number(Finite(7.0))) == Err(NCrRange);
  }

  /** The regular expression leaves some call shapes to the general parser:
      a `)` inside the second argument defeats it, while a comma there does
      not (the second argument `2,3` then fails on its own). */
  lemma MatchCallShapes()
    ensures MatchCall("nPr", "nPr(5,(2))") == None
    ensures MatchCall("nPr", "nPr(5,2,3)") == Some(("5", "2,3"))
    ensures MatchCall("nPr", "nPr(,2)") == None
    ensures MatchCall("nPr", "nPr(5,2)+1") == None
  {
    var h := "nPr(5,(2))";
    assert DropLast(h[4..][2..]) == "(2)";
    assert DropLast(h[4..][2..])[2] == ')';
    MatchCallComplete("nPr", "nPr(5,2,3)", "5", "2,3");
    assert "nPr(5,2)+1"[4..][2..] == "2)+1";
  }

  /** The general path on stripped, whitelisted text the pre-pass leaves
      alone. */
  lemma GeneralPath(h: string, env: Env)
    requires h != [] && Whitelisted(h) && forall i :: 0 <= i < |h| ==> !IsJsSpace(h[i])
    requires h[0] != 'n'
    ensures EvaluateExpression(h, env) == Pipeline(h, env)
  {
    StripNoSpace(h);
    MatchCallHead("nPr", h);
    MatchCallHead("nCr", h);
  }

  /** `_x` passes the whitelist but not the tokenizer. */
  lemma UnderscoreFailsInTokenizer(env: Env)
    ensures EvaluateExpression("_x", env) == Err(InvalidChar('_'))
  {
    GeneralPath("_x", env);
    LexEdgeCases(env.parseFloat);
  }

  /** A bare function name is refused. */
  lemma BareFunctionName(env: Env)
    ensures EvaluateExpression("sin", env) == Err(FunctionMissingParentheses)
  {
    GeneralPath("sin", env);
    LexNameLiteral("sin", env.parseFloat);
    var ts := [NameTok("sin")];
    Shunting.OperandStep(ts, 0, [], [], [RName("sin")]);
    Shunting.Finishes(ts, [RName("sin")], [], Ok([RName("sin")]));
    BareNames(Finite(0.0), env);
  }

  /** The pipeline composed from its stages' results. */
  lemma PipelineOf(h: string, env: Env, ts: seq<Token>, rpn: seq<RpnItem>)
    requires Lex(h, env.parseFloat) == Ok(ts) && Shunt(ts) == Ok(rpn)
    ensures Pipeline(h, env) == Eval(rpn, env)
  {
  }

  /** `()` evaluates to `undefined`, which the `=` handler rejects. */
  lemma EmptyParentheses(env: Env)
    ensures EvaluateExpression("()", env) == Ok(Undefined)
    ensures Equals("()", env) == Err(ResultNotFinite)
  {
    GeneralPath("()", env);
    LexEmptyParentheses(env.parseFloat);
    var ts := [OpTok('('), OpTok(')')];
    Shunting.EmptyParenthesesLeaveClose();
    PipelineOf("()", env, ts, [RClose]);
    EmptyParenthesesGiveUndefined(env);
  }

  /** `2*(3)`: the close marker drops the `2`, so the product is taken
      with NaN, and the `=` handler reports a non-finite result. */
  lemma ParenthesisAfterProduct(env: Env)
    ensures EvaluateExpression("2*(3)", env) == Ok(Number(env.arith(Mul, NaN, env.parseFloat("3"))))
    ensures PropagatesNaN(env) ==> Equals("2*(3)", env) == Err(ResultNotFinite)
  {
    ProductWithParenthesis(env);
    if PropagatesNaN(env) {
      assert env.arith(Mul, NaN, env.parseFloat("3")) == NaN;
    }
  }

  lemma ProductWithParenthesis(env: Env)
    ensures EvaluateExpression("2*(3)", env) == Ok(Number(env.arith(Mul, NaN, env.parseFloat("3"))))
  {
    GeneralPath("2*(3)", env);
    var a, b := env.parseFloat("2"), env.parseFloat("3");
    LexProduct(env.parseFloat);
    ParenthesisLeavesClose(a, b);
    var ts := [NumTok(a), OpTok('*'), OpTok('('), NumTok(b), OpTok(')')];
    var rpn := [RNum(a), RNum(b), RClose, ROp(Mul)];
    PipelineOf("2*(3)", env, ts, rpn);
    ParenthesisDropsOperand(a, b, env);
  }

  lemma LexProduct(p: string -> Num)
    ensures Lex("2*(3)", p) == Ok([NumTok(p("2")), OpTok('*'), OpTok('('), NumTok(p("3")), OpTok(')')])
  {
    var s := "2*(3)";
    var t4: seq<Token> := [OpTok(')')];
    var t3 := [NumTok(p("3"))] + t4;
    var t2 := [OpTok('(')] + t3;
    var t1 := [OpTok('*')] + t2;
    var t0 := [NumTok(p("2"))] + t1;
    LexOpStep(s, 4, p, []);
    assert [OpTok(s[4])] + [] == t4;
    assert NumberEnd(s, 4) == 4 && s[3..4] == "3";
    LexNumberStep(s, 3, 4, p, t4);
    LexOpStep(s, 2, p, t3);
    assert [OpTok(s[2])] + t3 == t2;
    LexOpStep(s, 1, p, t2);
    assert [OpTok(s[1])] + t2 == t1;
    assert NumberEnd(s, 1) == 1 && s[0..1] == "2";
    LexNumberStep(s, 0, 1, p, t1);
    assert t0 == [NumTok(p("2")), OpTok('*'), OpTok('('), NumTok(p("3")), OpTok(')')];
  }

  lemma LexEmptyParentheses(p: string -> Num)
    ensures Lex("()", p) == Ok([OpTok('('), OpTok(')')])
  {
    var s := "()";
    LexOpStep(s, 1, p, []);
    assert [OpTok(s[1])] + [] == [OpTok(')')];
    LexOpStep(s, 0, p, [OpTok(')')]);
    assert [OpTok(s[0])] + [OpTok(')')] == [OpTok('('), OpTok(')')];
  }

  /** Blank input is never an answer. */
  lemma BlankIsNotAnAnswer(expr: string, env: Env)
    requires StripWhitespace(expr) == []
    ensures Equals(expr, env) == Err(ResultNotFinite)
  {
    assert EvaluateExpression(expr, env) == Ok(EmptyString);
  }
}
