/**
 * `VariableExpressionTokenizer`: splits expressions such as
 * `Text {module:{module:attribute}} more text {variable}` into the tokens
 * OPEN, CLOSE, COLON, TEXT, MODULE and VARIABLE, handing each to a
 * receiver as soon as it is found. A backslash before a brace is removed
 * and the brace becomes text.
 *
 * The result is the tokens the receiver got, in order, and the exception
 * that ended the scan, if any: a `ParseException` at a position, or the
 * `StringIndexOutOfBoundsException` a trailing backslash causes.
 */
module Tokenizers {
  import opened Wrappers

  datatype TokenType = Open | Close | Colon | Text | Module | Variable

  /** A token as passed to `addToken(type, value)`; OPEN, CLOSE and COLON carry `null`. */
  datatype Token = Token(kind: TokenType, value: Option<string>)

  /** The first index of `c` at or after `from`, or the length when there is none. */
  function Find(s: string, c: char, from: nat): (r: nat)
    requires from <= |s|
    ensures from <= r <= |s|
    ensures r < |s| ==> s[r] == c
    decreases |s| - from
  {
    if from == |s| then |s| else if s[from] == c then from else Find(s, c, from + 1)
  }

  lemma {:induction false} FindFirst(s: string, c: char, from: nat)
    requires from <= |s|
    ensures forall k :: from <= k < Find(s, c, from) ==> s[k] != c
    decreases |s| - from
  {
    if from < |s| && s[from] != c {
      FindFirst(s, c, from + 1);
    }
  }

  /** `Find` is the index of the first `c` from `from` on, or the length when none is left. */
  lemma FindIs(s: string, c: char, from: nat, k: nat)
    requires from <= k <= |s|
    requires k < |s| ==> s[k] == c
    requires forall j :: from <= j < k ==> s[j] != c
    ensures Find(s, c, from) == k
  {
    FindFirst(s, c, from);
  }

  /** The private `indexOf(expression, chr, pos)`: searched after `pos`. */
  function IndexOf(expression: string, c: char, pos: nat): (r: nat)
    requires pos < |expression|
    ensures pos < r <= |expression|
    ensures r < |expression| ==> expression[r] == c
    ensures forall k :: pos < k < r ==> expression[k] != c
  {
    FindFirst(expression, c, pos + 1);
    Find(expression, c, pos + 1)
  }

  /** The local variables of `tokenize` at the head of its loop. */
  datatype Scan = Scan(expr: string, i: nat, pos: nat, last: Option<TokenType>, opens: nat, closes: nat, escape: bool, tokens: seq<Token>)

  predicate Valid(s: Scan) {
    s.pos <= s.i <= |s.expr|
  }

  function Measure(s: Scan): nat
    requires Valid(s)
  {
    2 * (|s.expr| - s.i) + (if s.escape then 0 else 1)
  }

  /** `longer` starts with `shorter`: tokens once handed over are never taken back. */
  predicate Extends(longer: seq<Token>, shorter: seq<Token>) {
    |shorter| <= |longer| && longer[..|shorter|] == shorter
  }

  /** One turn of the loop ends in the next state, or in an exception with the tokens handed over so far. */
  datatype Turn = Continue(next: Scan) | Abort(tokens: seq<Token>, error: Exception)

  /** The TEXT token for `expr[pos..i]`, when that is not empty. */
  function TextFrom(expr: string, pos: nat, i: nat): (r: seq<Token>)
    requires pos <= i <= |expr|
    ensures i == pos ==> r == []
    ensures i > pos ==> r == [Token(Text, Some(expr[pos..i]))]
  {
    if i > pos then [Token(Text, Some(expr[pos..i]))] else []
  }

  /** The `'{'` branch: the pending text, OPEN, then MODULE up to a colon or VARIABLE up to a brace. */
  function OpenStep(s: Scan): (r: Turn)
    requires Valid(s) && s.i < |s.expr| && !s.escape
    ensures r.Continue? ==> Valid(r.next) && Measure(r.next) < Measure(s) && !r.next.escape
    ensures r.Continue? ==> Extends(r.next.tokens, s.tokens)
    ensures r.Abort? ==> Extends(r.tokens, s.tokens) && r.error == Parse(s.i)
  {
    var pre := s.tokens + TextFrom(s.expr, s.pos, s.i) + [Token(Open, None)];
    var colon := IndexOf(s.expr, ':', s.i);
    var close := IndexOf(s.expr, '}', s.i);
    var open := IndexOf(s.expr, '{', s.i);
    if open < colon && open < close then Abort(pre, Parse(s.i))
    else if colon < close then
      Continue(s.(tokens := pre + [Token(Module, Some(s.expr[s.i + 1..colon]))], last := Some(Module),
                  opens := s.opens + 1, i := colon, pos := colon))
    else
      Continue(s.(tokens := pre + [Token(Variable, Some(s.expr[s.i + 1..close]))], last := Some(Variable),
                  opens := s.opens + 1, i := close, pos := close))
  }

  /** The `'}'` branch: one after a backslash is skipped, otherwise the pending text and CLOSE. */
  function CloseStep(s: Scan): (r: Turn)
    requires Valid(s) && s.i < |s.expr| && !s.escape
    ensures r.Continue? && Valid(r.next) && Measure(r.next) < Measure(s) && !r.next.escape
    ensures Extends(r.next.tokens, s.tokens)
  {
    if s.i > 0 && s.expr[s.i - 1] == '\\' then Continue(s.(i := s.i + 1))
    else
      Continue(s.(tokens := s.tokens + TextFrom(s.expr, s.pos, s.i) + [Token(Close, None)], last := Some(Close),
                  closes := s.closes + 1, pos := s.i + 1, i := s.i + 1))
  }

  /** One turn of the `for` loop, including its `i++`. */
  function Step(s: Scan): (r: Turn)
    requires Valid(s) && s.i < |s.expr|
    ensures r.Continue? ==> Valid(r.next) && Measure(r.next) < Measure(s)
    ensures r.Continue? ==> Extends(r.next.tokens, s.tokens)
    ensures r.Abort? ==> Extends(r.tokens, s.tokens) && (r.error.Parse? || r.error == IndexOutOfBounds)
  {
    var c := s.expr[s.i];
    if s.escape then Continue(s.(escape := false, i := s.i + 1))
    else if c == '\\' then
      if s.i + 1 == |s.expr| then Abort(s.tokens, IndexOutOfBounds)
      else if s.expr[s.i + 1] == '{' || s.expr[s.i + 1] == '}' then
        Continue(s.(expr := s.expr[..s.i] + s.expr[s.i + 1..], escape := true))
      else Continue(s.(i := s.i + 1))
    else if c == '{' then OpenStep(s)
    else if c == '}' then CloseStep(s)
    else if c == ':' && s.last == Some(Module) && s.i == s.pos then
      Continue(s.(tokens := s.tokens + [Token(Colon, None)], last := Some(Colon), pos := s.i + 1, i := s.i + 1))
    else Continue(s.(i := s.i + 1))
  }

  /** After the loop: the trailing text, then the check that every OPEN was closed. */
  function Finish(s: Scan): (r: (seq<Token>, Option<Exception>))
    requires Valid(s)
    ensures Extends(r.0, s.tokens)
    ensures r.1.None? <==> s.opens == s.closes
    ensures r.1.Some? ==> r.1.value == Parse(|s.expr|)
  {
    var tokens := s.tokens + TextFrom(s.expr, s.pos, s.i);
    if s.opens != s.closes then (tokens, Some(Parse(|s.expr|))) else (tokens, None)
  }

  /** The loop from `s` on, then `Finish`: the tokens handed over after those of `s`, and the exception, a `ParseException` or an index out of bounds. */
  function Run(s: Scan): (r: (seq<Token>, Option<Exception>))
    requires Valid(s)
    ensures Extends(r.0, s.tokens)
    ensures r.1.Some? ==> r.1.value.Parse? || r.1.value == IndexOutOfBounds
    decreases Measure(s)
  {
    if s.i == |s.expr| then Finish(s)
    else
      var st := Step(s);
      if st.Abort? then (st.tokens, Some(st.error))
      else
        var r := Run(st.next);
        assert r.0[..|s.tokens|] == r.0[..|st.next.tokens|][..|s.tokens|];
        r
  }

  function Start(expression: string): (r: Scan)
    ensures Valid(r)
  {
    Scan(expression, 0, 0, None, 0, 0, false, [])
  }

  /** `tokenize(expression, receiver)`: the tokens received and the exception thrown, if any. */
  function Tokenization(expression: string): (r: (seq<Token>, Option<Exception>))
    ensures r.1.Some? ==> r.1.value.Parse? || r.1.value == IndexOutOfBounds
  {
    Run(Start(expression))
  }

  lemma RunStep(s: Scan)
    requires Valid(s) && s.i < |s.expr|
    ensures Step(s).Abort? ==> Run(s) == (Step(s).tokens, Some(Step(s).error))
    ensures Step(s).Continue? ==> Run(s) == Run(Step(s).next)
  {
  }

  lemma RunDone(s: Scan)
    requires Valid(s) && s.i == |s.expr|
    ensures Run(s) == Finish(s)
  {
  }

  lemma Advance(s: Scan, next: Scan)
    requires Valid(s) && s.i < |s.expr|
    requires Step(s) == Continue(next)
    ensures Valid(next) && Run(next) == Run(s)
  {
  }

  // ---------------------------------------------------------------------
  // The loop itself

  /** The `'{'` branch of the loop body, `i++` included. */
  method OpenBrace(s: Scan) returns (t: Turn)
    requires Valid(s) && s.i < |s.expr| && !s.escape
    ensures t == OpenStep(s)
  {
    var expr, i: int, pos, last, opens, tokens := s.expr, s.i, s.pos, s.last, s.opens, s.tokens;
    tokens := tokens + TextFrom(expr, pos, i) + [Token(Open, None)];
    opens := opens + 1;
    last := Some(Open);
    var colonPos := IndexOf(expr, ':', i);
    var closePos := IndexOf(expr, '}', i);
    var openPos := IndexOf(expr, '{', i);
    if openPos < colonPos && openPos < closePos {
      return Abort(tokens, Parse(i));
    }
    if colonPos < closePos {
      last := Some(Module);
      tokens := tokens + [Token(Module, Some(expr[i + 1..colonPos]))];
      i := colonPos - 1;
    } else {
      last := Some(Variable);
      tokens := tokens + [Token(Variable, Some(expr[i + 1..closePos]))];
      i := closePos - 1;
    }
    pos := i + 1;
    i := i + 1;
    return Continue(s.(i := i, pos := pos, last := last, opens := opens, tokens := tokens));
  }

  /** The `'}'` branch of the loop body, `i++` included. */
  method CloseBrace(s: Scan) returns (t: Turn)
    requires Valid(s) && s.i < |s.expr| && !s.escape
    ensures t == CloseStep(s)
  {
    var i, pos, last, closes, tokens := s.i, s.pos, s.last, s.closes, s.tokens;
    if !(i > 0 && s.expr[i - 1] == '\\') {
      tokens := tokens + TextFrom(s.expr, pos, i) + [Token(Close, None)];
      last := Some(Close);
      closes := closes + 1;
      pos := i + 1;
    }
    i := i + 1;
    return Continue(s.(i := i, pos := pos, last := last, closes := closes, tokens := tokens));
  }

  /** The body of the `for` loop, `i++` included, on the loop's local variables. */
  method LoopBody(s: Scan) returns (t: Turn)
    requires Valid(s) && s.i < |s.expr|
    ensures t == Step(s)
  {
    var expr, i: int, pos, last, escape, tokens := s.expr, s.i, s.pos, s.last, s.escape, s.tokens;
    var c := expr[i];
    if escape {
      escape := false;
    } else if c == '\\' {
      if i + 1 == |expr| {
        return Abort(tokens, IndexOutOfBounds);
      }
      var next := expr[i + 1];
      if next == '{' || next == '}' {
        expr := expr[..i] + expr[i + 1..];
        escape := true;
        i := i - 1;
      }
    } else if c == '{' {
      t := OpenBrace(s);
      return;
    } else if c == '}' {
      t := CloseBrace(s);
      return;
    } else if c == ':' {
      if last == Some(Module) && i == pos {
        tokens := tokens + [Token(Colon, None)];
        last := Some(Colon);
        pos := i + 1;
      }
    }
    i := i + 1;
    return Continue(s.(expr := expr, i := i, pos := pos, last := last, escape := escape, tokens := tokens));
  }

  /** `tokenize`: the loop over the expression, which a turn may shorten by an escaping backslash. */
  method Tokenize(expression: string) returns (tokens: seq<Token>, error: Option<Exception>)
    ensures (tokens, error) == Tokenization(expression)
  {
    var s := Start(expression);
    while s.i < |s.expr|
      invariant Valid(s) && Run(s) == Tokenization(expression)
      decreases Measure(s)
    {
      RunStep(s);
      var t := LoopBody(s);
      if t.Abort? {
        return t.tokens, Some(t.error);
      }
      s := t.next;
    }
    RunDone(s);
    var done := Finish(s);
    tokens, error := done.0, done.1;
  }

  // ---------------------------------------------------------------------
  // What the tokens of an expression are

  /** Text the loop passes over without emitting anything: no brace, and every backslash followed by a character of the text. */
  predicate Plain(e: string, from: nat, to: nat)
    requires from <= to <= |e|
  {
    forall k :: from <= k < to ==> e[k] != '{' && e[k] != '}' && (e[k] == '\\' ==> k + 1 < to)
  }

  lemma PlainShift(x: string, before: string, after: string)
    requires Plain(x, 0, |x|)
    ensures Plain(before + x + after, |before|, |before| + |x|)
  {
    var e := before + x + after;
    assert forall k :: |before| <= k < |before| + |x| ==> e[k] == x[k - |before|];
  }

  /** Over plain text outside a module reference, the loop only advances `i`. */
  lemma {:induction false} PlainRun(s: Scan, j: nat)
    requires Valid(s) && s.i <= j <= |s.expr| && !s.escape && s.last != Some(Module)
    requires Plain(s.expr, s.i, j)
    ensures Valid(s.(i := j)) && Run(s) == Run(s.(i := j))
    decreases j - s.i
  {
    if s.i < j {
      var n := s.(i := s.i + 1);
      assert Step(s) == Continue(n);
      Advance(s, n);
      PlainRun(n, j);
    }
  }

  /** Text with no brace (and no backslash at its end) is one TEXT token, colons included. */
  lemma PlainText(t: string)
    requires Plain(t, 0, |t|)
    ensures Tokenization(t) == (if t == [] then [] else [Token(Text, Some(t))], None)
  {
    PlainRun(Start(t), |t|);
    var s := Start(t).(i := |t|);
    RunDone(s);
    assert t[0..|t|] == t;
    assert [] + TextFrom(t, 0, |t|) == TextFrom(t, 0, |t|);
    assert Finish(s) == (TextFrom(t, 0, |t|), None);
  }

  /** No character of `name` is a brace or a colon. */
  predicate Bare(name: string) {
    forall k :: 0 <= k < |name| ==> name[k] != '{' && name[k] != '}' && name[k] != ':'
  }

  /** `{name}` is OPEN, VARIABLE(name), CLOSE. */
  lemma VariableReference(name: string)
    requires Bare(name) && (name == [] || name[|name| - 1] != '\\')
    ensures Tokenization("{" + name + "}") ==
      ([Token(Open, None), Token(Variable, Some(name)), Token(Close, None)], None)
  {
    var e := "{" + name + "}";
    var close := |name| + 1;
    assert forall k :: 1 <= k < close ==> e[k] == name[k - 1];
    FindIs(e, ':', 1, |e|);
    FindIs(e, '}', 1, close);
    FindIs(e, '{', 1, |e|);
    var s0 := Start(e);
    assert e[1..close] == name;
    var s1 := Scan(e, close, close, Some(Variable), 1, 0, false, [Token(Open, None), Token(Variable, Some(name))]);
    assert Step(s0) == Continue(s1);
    Advance(s0, s1);
    var s2 := Scan(e, |e|, |e|, Some(Close), 1, 1, false, s1.tokens + [Token(Close, None)]);
    assert Step(s1) == Continue(s2);
    Advance(s1, s2);
    RunDone(s2);
    assert s2.tokens + [] == [Token(Open, None), Token(Variable, Some(name)), Token(Close, None)];
  }

  /** The state after `{m:` has been read. */
  function AfterColon(m: string, x: string): (r: Scan)
    ensures Valid(r)
  {
    Scan("{" + m + ":" + x + "}", |m| + 2, |m| + 2, Some(Colon), 1, 0, false,
      [Token(Open, None), Token(Module, Some(m)), Token(Colon, None)])
  }

  lemma ModuleHead(m: string, x: string)
    requires Bare(m)
    ensures Tokenization("{" + m + ":" + x + "}") == Run(AfterColon(m, x))
  {
    var e := "{" + m + ":" + x + "}";
    var colon := |m| + 1;
    var close := |m| + 2 + |x|;
    assert forall k :: 1 <= k < colon ==> e[k] == m[k - 1];
    FindIs(e, ':', 1, colon);
    FindFirst(e, '}', 1);
    FindFirst(e, '{', 1);
    assert IndexOf(e, '}', 0) > colon;
    assert IndexOf(e, '{', 0) > colon;
    assert e[1..colon] == m;
    var head := [Token(Open, None), Token(Module, Some(m))];
    var s0 := Start(e);
    var s1 := Scan(e, colon, colon, Some(Module), 1, 0, false, head);
    assert Step(s0) == OpenStep(s0);
    assert Step(s0) == Continue(s1);
    Advance(s0, s1);
    assert Step(s1) == Continue(AfterColon(m, x));
    Advance(s1, AfterColon(m, x));
  }

  lemma ModuleTail(m: string, x: string)
    requires Plain(x, 0, |x|)
    ensures Run(AfterColon(m, x)) ==
      ([Token(Open, None), Token(Module, Some(m)), Token(Colon, None)]
        + (if x == [] then [] else [Token(Text, Some(x))]) + [Token(Close, None)], None)
  {
    var e := "{" + m + ":" + x + "}";
    var close := |m| + 2 + |x|;
    var s2 := AfterColon(m, x);
    PlainShift(x, "{" + m + ":", "}");
    PlainRun(s2, close);
    var s3 := s2.(i := close);
    assert e[|m| + 2..close] == x;
    var s4 := Scan(e, |e|, |e|, Some(Close), 1, 1, false, s2.tokens + TextFrom(e, |m| + 2, close) + [Token(Close, None)]);
    assert Step(s3) == CloseStep(s3);
    assert Step(s3) == Continue(s4);
    Advance(s3, s4);
    RunDone(s4);
    assert s4.tokens + [] == [Token(Open, None), Token(Module, Some(m)), Token(Colon, None)]
      + (if x == [] then [] else [Token(Text, Some(x))]) + [Token(Close, None)];
  }

  /** `{m:x}` is OPEN, MODULE(m), COLON, TEXT(x), CLOSE; there is no TEXT for an empty `x`. */
  lemma ModuleReference(m: string, x: string)
    requires Bare(m) && Plain(x, 0, |x|)
    ensures Tokenization("{" + m + ":" + x + "}") ==
      ([Token(Open, None), Token(Module, Some(m)), Token(Colon, None)]
        + (if x == [] then [] else [Token(Text, Some(x))]) + [Token(Close, None)], None)
  {
    ModuleHead(m, x);
    ModuleTail(m, x);
  }

  /** The tokens of `{a:{b:c}}` up to the inner module name. */
  const NestedHeadTokens: seq<Token> :=
    [Token(Open, None), Token(Module, Some("a")), Token(Colon, None), Token(Open, None), Token(Module, Some("b"))]

  /** `{a:{b:c}}` up to its inner colon: OPEN, MODULE(a), COLON, OPEN, MODULE(b). */
  lemma NestedHead()
    ensures Tokenization("{a:{b:c}}") == Run(Scan("{a:{b:c}}", 5, 5, Some(Module), 2, 0, false, NestedHeadTokens))
  {
    hide Run;
    var e := "{a:{b:c}}";
    FindIs(e, ':', 1, 2);
    FindIs(e, '}', 1, 7);
    FindIs(e, '{', 1, 3);
    FindIs(e, ':', 4, 5);
    FindIs(e, '}', 4, 7);
    FindIs(e, '{', 4, 9);
    var t1 := [Token(Open, None), Token(Module, Some("a"))];
    var s0 := Start(e);
    var s1 := Scan(e, 2, 2, Some(Module), 1, 0, false, t1);
    assert e[1..2] == "a";
    assert Step(s0) == Continue(s1);
    Advance(s0, s1);
    var t2 := t1 + [Token(Colon, None)];
    var s2 := Scan(e, 3, 3, Some(Colon), 1, 0, false, t2);
    assert Step(s1) == Continue(s2);
    Advance(s1, s2);
    assert t2 + [Token(Open, None), Token(Module, Some("b"))] == NestedHeadTokens;
    var s3 := Scan(e, 5, 5, Some(Module), 2, 0, false, NestedHeadTokens);
    assert e[4..5] == "b";
    assert TextFrom(e, 3, 3) == [];
    assert Step(s2) == Continue(s3);
    Advance(s2, s3);
  }

  /** The rest of `{a:{b:c}}`: COLON, TEXT(c), then both references are closed and the counts agree. */
  lemma NestedTail()
    ensures Run(Scan("{a:{b:c}}", 5, 5, Some(Module), 2, 0, false, NestedHeadTokens)) ==
      (NestedHeadTokens + [Token(Colon, None), Token(Text, Some("c")), Token(Close, None), Token(Close, None)], None)
  {
    hide Run;
    var e := "{a:{b:c}}";
    var s3 := Scan(e, 5, 5, Some(Module), 2, 0, false, NestedHeadTokens);
    var t4 := NestedHeadTokens + [Token(Colon, None)];
    var s4 := Scan(e, 6, 6, Some(Colon), 2, 0, false, t4);
    assert Step(s3) == Continue(s4);
    Advance(s3, s4);
    var s5 := s4.(i := 7);
    assert Step(s4) == Continue(s5);
    Advance(s4, s5);
    var t6 := t4 + [Token(Text, Some("c")), Token(Close, None)];
    var s6 := Scan(e, 8, 8, Some(Close), 2, 1, false, t6);
    assert e[6..7] == "c";
    assert Step(s5) == Continue(s6);
    Advance(s5, s6);
    var t7 := t6 + [Token(Close, None)];
    var s7 := Scan(e, 9, 9, Some(Close), 2, 2, false, t7);
    assert TextFrom(e, 8, 8) == [];
    assert Step(s6) == Continue(s7);
    Advance(s6, s7);
    RunDone(s7);
    assert TextFrom(e, 9, 9) == [];
    assert t7 + [] == t7;
    assert t7 == NestedHeadTokens + [Token(Colon, None), Token(Text, Some("c")), Token(Close, None), Token(Close, None)];
  }

  /** A module reference nested in another, `{a:{b:c}}`: each level gets its OPEN, MODULE and COLON, and both are closed. */
  lemma NestedModuleReference()
    ensures Tokenization("{a:{b:c}}") ==
      ([Token(Open, None), Token(Module, Some("a")), Token(Colon, None),
        Token(Open, None), Token(Module, Some("b")), Token(Colon, None),
        Token(Text, Some("c")), Token(Close, None), Token(Close, None)], None)
  {
    hide Tokenization, Run;
    NestedHead();
    NestedTail();
    assert NestedHeadTokens + [Token(Colon, None), Token(Text, Some("c")), Token(Close, None), Token(Close, None)] ==
      [Token(Open, None), Token(Module, Some("a")), Token(Colon, None),
        Token(Open, None), Token(Module, Some("b")), Token(Colon, None),
        Token(Text, Some("c")), Token(Close, None), Token(Close, None)];
  }

  /** The loop reaches the first brace of `t + rest` with nothing handed over. */
  lemma PlainPrefix(t: string, rest: string)
    requires Plain(t, 0, |t|)
    ensures Tokenization(t + rest) == Run(Scan(t + rest, |t|, 0, None, 0, 0, false, []))
  {
    PlainShift(t, [], rest);
    assert [] + t + rest == t + rest;
    PlainRun(Start(t + rest), |t|);
  }

  /** At a `'{'` whose next brace-or-colon is another `'{'`, the scan ends in a `ParseException` at that position. */
  lemma OpenAborts(s: Scan)
    requires Valid(s) && s.i < |s.expr| && !s.escape && s.expr[s.i] == '{'
    requires IndexOf(s.expr, '{', s.i) < IndexOf(s.expr, ':', s.i) && IndexOf(s.expr, '{', s.i) < IndexOf(s.expr, '}', s.i)
    ensures Run(s) == (s.tokens + TextFrom(s.expr, s.pos, s.i) + [Token(Open, None)], Some(Parse(s.i)))
  {
    assert Step(s) == OpenStep(s);
    RunStep(s);
  }

  /** A `'{'` whose next brace-or-colon is another `'{'` is a `ParseException` at its own position. */
  lemma NestedOpen(t: string, u: string, k: nat)
    requires Plain(t, 0, |t|)
    requires k < |u| && u[k] == '{' && forall j :: 0 <= j < k ==> u[j] != ':' && u[j] != '}'
    ensures Tokenization(t + "{" + u) ==
      ((if t == [] then [] else [Token(Text, Some(t))]) + [Token(Open, None)], Some(Parse(|t|)))
  {
    var e := t + "{" + u;
    assert e == t + ("{" + u);
    PlainPrefix(t, "{" + u);
    NestedIndices(t, u, k);
    OpenAborts(Scan(e, |t|, 0, None, 0, 0, false, []));
    assert e[0..|t|] == t;
    assert [] + TextFrom(e, 0, |t|) == TextFrom(e, 0, |t|);
  }

  lemma NestedIndices(t: string, u: string, k: nat)
    requires k < |u| && u[k] == '{' && forall j :: 0 <= j < k ==> u[j] != ':' && u[j] != '}'
    ensures var e := t + "{" + u;
      e[|t|] == '{' && IndexOf(e, '{', |t|) < IndexOf(e, ':', |t|) && IndexOf(e, '{', |t|) < IndexOf(e, '}', |t|)
  {
    var e := t + "{" + u;
    var at := |t| + 1 + k;
    assert forall j :: |t| < j <= at ==> e[j] == u[j - |t| - 1];
    assert e[at] == u[k] == '{';
    FindFirst(e, '{', |t| + 1);
    FindFirst(e, ':', |t| + 1);
    FindFirst(e, '}', |t| + 1);
    assert IndexOf(e, '{', |t|) <= at;
  }

  /** `{name` with no closing brace: OPEN, VARIABLE(name), then a `ParseException` at the length. */
  lemma UnclosedReference(name: string)
    requires Bare(name)
    ensures Tokenization("{" + name) == ([Token(Open, None), Token(Variable, Some(name))], Some(Parse(|name| + 1)))
  {
    var e := "{" + name;
    assert forall k :: 1 <= k < |e| ==> e[k] == name[k - 1];
    FindIs(e, ':', 1, |e|);
    FindIs(e, '}', 1, |e|);
    FindIs(e, '{', 1, |e|);
    assert e[1..|e|] == name;
    var s0 := Start(e);
    var s1 := Scan(e, |e|, |e|, Some(Variable), 1, 0, false, [Token(Open, None), Token(Variable, Some(name))]);
    assert Step(s0) == Continue(s1);
    Advance(s0, s1);
    RunDone(s1);
    assert s1.tokens + [] == s1.tokens;
  }

  /** A `'}'` with no `'{'` before it: the text, CLOSE, then a `ParseException` at the length. */
  lemma UnopenedClose(t: string)
    requires Plain(t, 0, |t|)
    ensures Tokenization(t + "}") ==
      ((if t == [] then [] else [Token(Text, Some(t))]) + [Token(Close, None)], Some(Parse(|t| + 1)))
  {
    var e := t + "}";
    PlainShift(t, [], "}");
    assert [] + t + "}" == e;
    var s0 := Start(e);
    PlainRun(s0, |t|);
    var s1 := s0.(i := |t|);
    assert e[0..|t|] == t;
    var s2 := Scan(e, |e|, |e|, Some(Close), 0, 1, false, TextFrom(e, 0, |t|) + [Token(Close, None)]);
    assert [] + TextFrom(e, 0, |t|) == TextFrom(e, 0, |t|);
    assert Step(s1) == Continue(s2);
    Advance(s1, s2);
    RunDone(s2);
    assert s2.tokens + [] == s2.tokens;
  }

  /**
   * A backslash as the last character: the look-ahead reads past the end,
   * so the scan ends in an index-out-of-bounds error with nothing handed on.
   */
  lemma TrailingBackslash(t: string)
    requires Plain(t, 0, |t|)
    ensures Tokenization(t + "\\") == ([], Some(IndexOutOfBounds))
  {
    var e := t + "\\";
    PlainPrefix(t, "\\");
    var s1 := Scan(e, |t|, 0, None, 0, 0, false, []);
    assert e[|t|] == '\\';
    assert Step(s1) == Abort([], IndexOutOfBounds);
    RunStep(s1);
  }

  /** The state just after an escaped brace: the backslash is gone and the scan stands after the brace. */
  function AfterEscape(t1: string, b: char, t2: string): (r: Scan)
    ensures Valid(r)
  {
    Scan(t1 + [b] + t2, |t1| + 1, 0, None, 0, 0, false, [])
  }

  lemma EscapeHead(t1: string, b: char, t2: string)
    requires b == '{' || b == '}'
    requires Plain(t1, 0, |t1|)
    ensures Tokenization(t1 + ['\\', b] + t2) == Run(AfterEscape(t1, b, t2))
  {
    var e := t1 + ['\\', b] + t2;
    var e' := t1 + [b] + t2;
    assert e == t1 + (['\\', b] + t2);
    PlainPrefix(t1, ['\\', b] + t2);
    var s1 := Scan(e, |t1|, 0, None, 0, 0, false, []);
    assert e[..|t1|] + e[|t1| + 1..] == e';
    var s2 := s1.(expr := e', escape := true);
    assert Step(s1) == Continue(s2);
    Advance(s1, s2);
    assert Step(s2) == Continue(AfterEscape(t1, b, t2));
    Advance(s2, AfterEscape(t1, b, t2));
  }

  lemma EscapeTail(t1: string, b: char, t2: string)
    requires Plain(t2, 0, |t2|)
    ensures Run(AfterEscape(t1, b, t2)) == ([Token(Text, Some(t1 + [b] + t2))], None)
  {
    var e' := t1 + [b] + t2;
    var s3 := AfterEscape(t1, b, t2);
    PlainShift(t2, t1 + [b], []);
    assert t1 + [b] + t2 + [] == e';
    PlainRun(s3, |e'|);
    RunDone(s3.(i := |e'|));
    assert e'[0..|e'|] == e';
    assert [] + TextFrom(e', 0, |e'|) == TextFrom(e', 0, |e'|);
  }

  /** A backslash before a brace is removed, and the brace is part of the text. */
  lemma EscapedBrace(t1: string, b: char, t2: string)
    requires b == '{' || b == '}'
    requires Plain(t1, 0, |t1|) && Plain(t2, 0, |t2|)
    ensures Tokenization(t1 + ['\\', b] + t2) == ([Token(Text, Some(t1 + [b] + t2))], None)
  {
    EscapeHead(t1, b, t2);
    EscapeTail(t1, b, t2);
  }

  // ---------------------------------------------------------------------
  // Balance of OPEN and CLOSE

  function CountOf(tokens: seq<Token>, kind: TokenType): nat {
    if tokens == [] then 0
    else CountOf(tokens[..|tokens| - 1], kind) + (if tokens[|tokens| - 1].kind == kind then 1 else 0)
  }

  lemma {:induction false} CountAppend(a: seq<Token>, b: seq<Token>, kind: TokenType)
    ensures CountOf(a + b, kind) == CountOf(a, kind) + CountOf(b, kind)
    decreases |b|
  {
    if b == [] {
      assert a + b == a;
    } else {
      var init := b[..|b| - 1];
      assert (a + b)[..|a + b| - 1] == a + init;
      assert (a + b)[|a + b| - 1] == b[|b| - 1];
      CountAppend(a, init, kind);
    }
  }

  /** The two counters of the loop count the OPEN and CLOSE tokens handed over. */
  predicate Counted(s: Scan) {
    s.opens == CountOf(s.tokens, Open) && s.closes == CountOf(s.tokens, Close)
  }

  lemma CountPush(a: seq<Token>, t: Token, kind: TokenType)
    ensures CountOf(a + [t], kind) == CountOf(a, kind) + (if t.kind == kind then 1 else 0)
  {
    assert (a + [t])[..|a|] == a;
  }

  /** Pending text is neither OPEN nor CLOSE. */
  lemma TextCounts(tokens: seq<Token>, expr: string, pos: nat, i: nat)
    requires pos <= i <= |expr|
    ensures CountOf(tokens + TextFrom(expr, pos, i), Open) == CountOf(tokens, Open)
    ensures CountOf(tokens + TextFrom(expr, pos, i), Close) == CountOf(tokens, Close)
  {
    if i > pos {
      CountPush(tokens, Token(Text, Some(expr[pos..i])), Open);
      CountPush(tokens, Token(Text, Some(expr[pos..i])), Close);
    } else {
      assert tokens + TextFrom(expr, pos, i) == tokens;
    }
  }

  lemma OpenCounted(s: Scan)
    requires Valid(s) && s.i < |s.expr| && !s.escape && Counted(s)
    ensures OpenStep(s).Continue? ==> Counted(OpenStep(s).next)
  {
    var pre := s.tokens + TextFrom(s.expr, s.pos, s.i);
    TextCounts(s.tokens, s.expr, s.pos, s.i);
    CountPush(pre, Token(Open, None), Open);
    CountPush(pre, Token(Open, None), Close);
    var rest := pre + [Token(Open, None)];
    var colon := IndexOf(s.expr, ':', s.i);
    var close := IndexOf(s.expr, '}', s.i);
    if colon < close {
      CountPush(rest, Token(Module, Some(s.expr[s.i + 1..colon])), Open);
      CountPush(rest, Token(Module, Some(s.expr[s.i + 1..colon])), Close);
    } else {
      CountPush(rest, Token(Variable, Some(s.expr[s.i + 1..close])), Open);
      CountPush(rest, Token(Variable, Some(s.expr[s.i + 1..close])), Close);
    }
  }

  lemma CloseCounted(s: Scan)
    requires Valid(s) && s.i < |s.expr| && !s.escape && Counted(s)
    ensures Counted(CloseStep(s).next)
  {
    if !(s.i > 0 && s.expr[s.i - 1] == '\\') {
      var pre := s.tokens + TextFrom(s.expr, s.pos, s.i);
      TextCounts(s.tokens, s.expr, s.pos, s.i);
      CountPush(pre, Token(Close, None), Open);
      CountPush(pre, Token(Close, None), Close);
      assert CloseStep(s).next.tokens == pre + [Token(Close, None)];
    }
  }

  /** Every turn of the loop keeps the counters equal to the OPEN and CLOSE tokens handed over. */
  lemma StepCounted(s: Scan)
    requires Valid(s) && s.i < |s.expr| && Counted(s)
    ensures Step(s).Continue? ==> Counted(Step(s).next)
  {
    var c := s.expr[s.i];
    if s.escape || c == '\\' {
    } else if c == '{' {
      OpenCounted(s);
    } else if c == '}' {
      CloseCounted(s);
    } else if c == ':' && s.last == Some(Module) && s.i == s.pos {
      CountPush(s.tokens, Token(Colon, None), Open);
      CountPush(s.tokens, Token(Colon, None), Close);
    }
  }

  /** Whenever no exception ends the scan, the receiver got as many CLOSE tokens as OPEN tokens. */
  lemma {:induction false} RunBalanced(s: Scan)
    requires Valid(s) && Counted(s)
    ensures Run(s).1.None? ==> CountOf(Run(s).0, Open) == CountOf(Run(s).0, Close)
    decreases Measure(s)
  {
    if s.i == |s.expr| {
      CountAppend(s.tokens, TextFrom(s.expr, s.pos, s.i), Open);
      CountAppend(s.tokens, TextFrom(s.expr, s.pos, s.i), Close);
      if s.i > s.pos {
        assert TextFrom(s.expr, s.pos, s.i)[..0] == [];
      }
    } else {
      RunStep(s);
      StepCounted(s);
      if Step(s).Continue? {
        RunBalanced(Step(s).next);
      }
    }
  }

  lemma TokenizationBalanced(expression: string)
    ensures Tokenization(expression).1.None? ==>
      CountOf(Tokenization(expression).0, Open) == CountOf(Tokenization(expression).0, Close)
  {
    RunBalanced(Start(expression));
  }
}
