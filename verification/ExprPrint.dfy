/** Expression trees, how they are written, and the proof that `resolve` reads them back. */
module ExprPrint {
  import opened Text
  import opened Expr

  datatype Tree =
    | True
    | False
    | NullLit
    | UndefinedLit
    | Number(text: string)
    | Quoted(quote: char, content: string)
    | Path(head: string, accs: seq<Acc>)
    | Group(e: Tree)
    | Not(e: Tree)
    | Eq(op: Op, l: Tree, r: Tree)

  datatype Acc = Field(name: string) | Index(digits: string) | Key(e: Tree)

  // ----- The meaning of a tree -----

  /** Member access, which finds nothing in null and undefined. */
  function Member(js: Js, v: Value, key: Value): Value {
    match v
    case Undefined => Undefined
    case Null => Undefined
    case _ => js.get(v, key)
  }

  function Eval(js: Js, vals: Value, e: Tree): Value
    decreases e, 0
  {
    match e
    case True => Bool(true)
    case False => Bool(false)
    case NullLit => Null
    case UndefinedLit => Undefined
    case Number(text) => js.number(text)
    case Quoted(_, content) => Str(content)
    case Path(head, accs) => EvalAccs(js, vals, Member(js, vals, Str(head)), accs)
    case Group(e) => Eval(js, vals, e)
    case Not(e) => Bool(!js.truthy(Eval(js, vals, e)))
    case Eq(op, l, r) =>
      var x, y := Eval(js, vals, l), Eval(js, vals, r);
      match op
      case StrictEq => Bool(js.same(x, y))
      case StrictNe => Bool(!js.same(x, y))
      case LooseEq => Bool(js.loose(x, y))
      case LooseNe => Bool(!js.loose(x, y))
  }

  function EvalAccs(js: Js, vals: Value, cur: Value, accs: seq<Acc>): Value
    decreases accs, 0
  {
    if accs == [] then cur
    else EvalAccs(js, vals, Member(js, cur, EvalKey(js, vals, accs[0])), accs[1..])
  }

  function EvalKey(js: Js, vals: Value, acc: Acc): Value
    decreases acc, 1
  {
    match acc
    case Field(name) => Str(name)
    case Index(digits) => Str(digits)
    case Key(e) => Eval(js, vals, e)
  }

  // ----- Writing a tree -----

  function Symbol(op: Op): string {
    match op
    case StrictEq => "==="
    case StrictNe => "!=="
    case LooseEq => "=="
    case LooseNe => "!="
  }

  /** Operators are written with the text `pad` on both sides; a chain of comparisons is nested to the right. */
  function Print(e: Tree, pad: string): string
    decreases e, 0
  {
    match e
    case True => "true"
    case False => "false"
    case NullLit => "null"
    case UndefinedLit => "undefined"
    case Number(text) => text
    case Quoted(quote, content) => [quote] + content + [quote]
    case Path(head, accs) => head + PrintAccs(accs, pad)
    case Group(e) => "(" + Print(e, pad) + ")"
    case Not(e) => "!" + Operand(e, pad)
    case Eq(op, l, r) => Operand(l, pad) + pad + Symbol(op) + pad + Print(r, pad)
  }

  /** A comparison in front of an operator, or behind a `!`, stands in parentheses. */
  function Operand(e: Tree, pad: string): string
    decreases e, 1
  {
    if e.Eq? then "(" + Print(e, pad) + ")" else Print(e, pad)
  }

  function PrintAccs(accs: seq<Acc>, pad: string): string
    decreases accs, 0
  {
    if accs == [] then "" else PrintAcc(accs[0], pad) + PrintAccs(accs[1..], pad)
  }

  function PrintAcc(acc: Acc, pad: string): string
    decreases acc, 1
  {
    match acc
    case Field(name) => "." + name
    case Index(digits) => "." + digits
    case Key(e) => "[" + Print(e, pad) + "]"
  }

  // ----- Which trees can be written -----

  predicate IsIdent(s: string) {
    s != "" && IdentLen(s, 0) == |s|
  }

  predicate Plain(c: char) {
    c !in "()[]=!"
  }

  predicate IsKeyword(s: string) {
    s in {"true", "false", "null", "undefined"}
  }

  /** Brackets match and every `==` and `!=` is nested in them. */
  ghost predicate Quotable(content: string) {
    Matched(content) && Shielded(content)
  }

  /** String contents are quotable; a bare name is not a keyword. */
  ghost predicate Writable(e: Tree) {
    match e
    case Number(text) => IsNumber(text)
    case Quoted(quote, content) => (quote == '"' || quote == '\'') && Quotable(content)
    case Path(head, accs) =>
      && IsIdent(head) && (accs == [] ==> !IsKeyword(head))
      && forall k :: 0 <= k < |accs| ==> WritableAcc(accs[k])
    case Group(e) => Writable(e)
    case Not(e) => Writable(e)
    case Eq(_, l, r) => Writable(l) && Writable(r)
    case _ => true
  }

  ghost predicate WritableAcc(acc: Acc) {
    match acc
    case Field(name) => IsIdent(name)
    case Index(digits) => digits != "" && DigitsLen(digits, 0) == |digits|
    case Key(e) => Writable(e)
  }

  // ----- Nesting of concatenated text -----

  lemma {:induction false} DepthConcat(w: Nesting, a: string, b: string, i: nat)
    requires i <= |a| + |b|
    ensures Depth(w, a + b, i) ==
            if i <= |a| then Depth(w, a, i) else Depth(w, a, |a|) + Depth(w, b, i - |a|)
  {
    if i > 0 {
      DepthConcat(w, a, b, i - 1);
    }
  }

  ghost predicate Balanced(w: Nesting, s: string) {
    Depth(w, s, |s|) == 0 && forall i: nat :: i <= |s| ==> Depth(w, s, i) >= 0
  }

  /** Every `==` and `!=` of the text is nested. */
  ghost predicate Shielded(s: string) {
    forall i: nat :: i + 1 < |s| && (s[i] == '=' || s[i] == '!') && s[i + 1] == '=' ==> Depth(Both, s, i) > 0
  }

  /** Brackets and parentheses match, each kind by itself and both together. */
  ghost predicate Matched(s: string) {
    forall w: Nesting :: Balanced(w, s)
  }

  lemma BalancedConcat(w: Nesting, a: string, b: string)
    requires Balanced(w, a) && Balanced(w, b)
    ensures Balanced(w, a + b)
  {
    forall i: nat | i <= |a + b|
      ensures Depth(w, a + b, i) >= 0
    {
      DepthConcat(w, a, b, i);
    }
    DepthConcat(w, a, b, |a + b|);
  }

  lemma MatchedConcat(a: string, b: string)
    requires Matched(a) && Matched(b)
    ensures Matched(a + b)
  {
    forall w: Nesting
      ensures Balanced(w, a + b)
    {
      BalancedConcat(w, a, b);
    }
  }

  lemma ShieldedConcat(a: string, b: string)
    requires Balanced(Both, a) && Shielded(a) && Shielded(b)
    requires a == "" || (a[|a| - 1] != '=' && a[|a| - 1] != '!') || b == "" || b[0] != '='
    ensures Shielded(a + b)
  {
    forall i: nat | i + 1 < |a + b| && ((a + b)[i] == '=' || (a + b)[i] == '!') && (a + b)[i + 1] == '='
      ensures Depth(Both, a + b, i) > 0
    {
      DepthConcat(Both, a, b, i);
    }
  }

  /** Text without brackets is flat. */
  lemma {:induction false} FlatDepth(w: Nesting, s: string, i: nat)
    requires i <= |s| && forall c :: c in s ==> c !in "()[]"
    ensures Depth(w, s, i) == 0
  {
    if i > 0 {
      FlatDepth(w, s, i - 1);
      assert s[i - 1] in s;
    }
  }

  lemma FlatMatched(s: string)
    requires forall c :: c in s ==> c !in "()[]"
    ensures Matched(s)
    ensures (forall c :: c in s ==> Plain(c)) ==> Shielded(s)
  {
    forall w: Nesting
      ensures Balanced(w, s)
    {
      forall i: nat | i <= |s|
        ensures Depth(w, s, i) == 0
      {
        FlatDepth(w, s, i);
      }
    }
    if forall c :: c in s ==> Plain(c) {
      assert forall i :: 0 <= i < |s| ==> s[i] in s && Plain(s[i]);
    }
  }

  /** Depth inside text wrapped in a bracket pair. */
  lemma DepthWrapped(w: Nesting, open: char, s: string, close: char, i: nat)
    requires (open == '(' && close == ')') || (open == '[' && close == ']')
    requires 1 <= i <= |s| + 1
    ensures Depth(w, [open] + s + [close], i) == Weight(w, open) + Depth(w, s, i - 1)
    ensures Depth(w, [open] + s + [close], |s| + 2) == Depth(w, s, |s|)
  {
    var t := [open] + s;
    assert Depth(w, [open], 1) == Weight(w, open);
    DepthConcat(w, [open], s, i);
    DepthConcat(w, t, [close], i);
    DepthConcat(w, [open], s, |s| + 1);
    DepthConcat(w, t, [close], |s| + 2);
    assert Depth(w, [close], 1) == Weight(w, close);
  }

  lemma WrappedMatched(open: char, s: string, close: char)
    requires (open == '(' && close == ')') || (open == '[' && close == ']')
    requires Matched(s)
    ensures Matched([open] + s + [close]) && Shielded([open] + s + [close])
  {
    var t := [open] + s + [close];
    forall w: Nesting | Balanced(w, s)
      ensures Balanced(w, t)
    {
      forall i: nat | i <= |t|
        ensures Depth(w, t, i) >= 0
      {
        if 1 <= i <= |s| + 1 {
          DepthWrapped(w, open, s, close, i);
        } else {
          DepthWrapped(w, open, s, close, 1);
        }
      }
      DepthWrapped(w, open, s, close, 1);
    }
    assert Balanced(Both, s);
    forall i: nat | i + 1 < |t| && (t[i] == '=' || t[i] == '!') && t[i + 1] == '='
      ensures Depth(Both, t, i) > 0
    {
      DepthWrapped(Both, open, s, close, i);
    }
  }

  // ----- The shape of written text -----

  /** Text with something to see at both ends. */
  ghost predicate Visible(s: string) {
    s != "" && !IsSpace(s[0]) && !IsSpace(s[|s| - 1])
  }

  /** Text that an operator may follow and that may follow an operator. */
  ghost predicate OperandText(s: string) {
    && Matched(s) && Shielded(s)
    && Visible(s) && s[0] != '=' && s[|s| - 1] != '=' && s[|s| - 1] != '!'
  }

  lemma PlainText(s: string)
    requires s != "" && forall c :: c in s ==> Plain(c)
    requires !IsSpace(s[0]) && !IsSpace(s[|s| - 1])
    ensures OperandText(s) && s[0] != '(' && s[0] != '!'
  {
    FlatMatched(s);
    assert s[0] in s && s[|s| - 1] in s;
    assert Plain(s[0]) && Plain(s[|s| - 1]);
  }

  lemma {:induction false} PartsAreParts(s: string, i: nat)
    requires i <= |s|
    ensures forall k :: i <= k < i + PartsLen(s, i) ==> IsIdentPart(s[k])
    decreases |s| - i
  {
    if i < |s| && IsIdentPart(s[i]) {
      PartsAreParts(s, i + 1);
    }
  }

  lemma {:induction false} DigitsAreDigits(s: string, i: nat)
    requires i <= |s|
    ensures forall k :: i <= k < i + DigitsLen(s, i) ==> IsDigit(s[k])
    decreases |s| - i
  {
    if i < |s| && IsDigit(s[i]) {
      DigitsAreDigits(s, i + 1);
    }
  }

  lemma IdentText(s: string)
    requires IsIdent(s)
    ensures OperandText(s) && IsIdentStart(s[0]) && forall k :: 0 <= k < |s| ==> IsIdentPart(s[k])
  {
    PartsAreParts(s, 0);
    forall c | c in s
      ensures Plain(c)
    {
      var k :| 0 <= k < |s| && s[k] == c;
    }
    PlainText(s);
  }

  lemma NumberText(s: string)
    requires IsNumber(s)
    ensures OperandText(s) && s[0] != '(' && s[0] != '!' && !IsKeyword(s)
  {
    var from := if s[0] == '-' then 1 else 0;
    var dot := from + DigitsLen(s, from);
    DigitsAreDigits(s, from);
    if dot < |s| {
      DigitsAreDigits(s, dot + 1);
    }
    assert forall k :: 0 <= k < |s| ==> IsDigit(s[k]) || s[k] == '-' || s[k] == '.';
    forall c | c in s
      ensures Plain(c)
    {
      var k :| 0 <= k < |s| && s[k] == c;
    }
    assert IsDigit(s[|s| - 1]);
    PlainText(s);
  }

  lemma QuotedText(quote: char, content: string)
    requires (quote == '"' || quote == '\'') && Quotable(content)
    ensures OperandText([quote] + content + [quote])
  {
    FlatMatched([quote]);
    MatchedConcat([quote], content);
    ShieldedConcat([quote], content);
    MatchedConcat([quote] + content, [quote]);
    ShieldedConcat([quote] + content, [quote]);
  }

  lemma NegatedText(o: string)
    requires OperandText(o)
    ensures OperandText("!" + o)
  {
    FlatMatched("!");
    MatchedConcat("!", o);
    ShieldedConcat("!", o);
  }

  lemma WrappedText(s: string)
    requires Matched(s)
    ensures OperandText("(" + s + ")") && ClosesAtEnd("(" + s + ")")
  {
    WrappedMatched('(', s, ')');
    assert Balanced(Parens, "(" + s + ")");
  }

  /** A parenthesis that opens the text is closed, and the last character closes one. */
  ghost predicate ClosesAtEnd(s: string) {
    s != "" && (s[0] == '(' ==> s[|s| - 1] == ')' && Depth(Parens, s, |s|) == 0)
  }

  /** What is true of every operand as written. */
  lemma {:induction false} OperandShape(e: Tree, pad: string)
    requires Writable(e) && AllSpaces(pad)
    ensures OperandText(Operand(e, pad)) && ClosesAtEnd(Operand(e, pad))
    decreases e, 1
  {
    match e
    case Eq(_, _, _) =>
      PrintMatched(e, pad);
      WrappedText(Print(e, pad));
    case Group(inner) =>
      PrintMatched(inner, pad);
      WrappedText(Print(inner, pad));
    case Not(inner) =>
      OperandShape(inner, pad);
      NegatedText(Operand(inner, pad));
    case _ =>
      AtomShape(e, pad);
  }

  /** An atom is written without an opening parenthesis. */
  lemma {:induction false} AtomShape(e: Tree, pad: string)
    requires Writable(e) && AllSpaces(pad) && !e.Not? && !e.Eq? && !e.Group?
    ensures OperandText(Print(e, pad)) && Print(e, pad)[0] != '(' && Print(e, pad)[0] != '!'
    decreases e, 0
  {
    match e
    case Number(text) => NumberText(text);
    case Quoted(quote, content) => QuotedText(quote, content);
    case Path(head, accs) =>
      IdentText(head);
      AccsShape(accs, pad);
      MatchedConcat(head, PrintAccs(accs, pad));
      ShieldedConcat(head, PrintAccs(accs, pad));
    case _ =>
      PlainText(Print(e, pad));
  }

  /** The written form of any tree has matching brackets, and something to see at both ends. */
  lemma {:induction false} PrintMatched(e: Tree, pad: string)
    requires Writable(e) && AllSpaces(pad)
    ensures Matched(Print(e, pad))
    ensures Visible(Print(e, pad)) && Print(e, pad)[0] != '='
    decreases e, if e.Eq? then 0 else 2
  {
    match e
    case Eq(op, l, r) =>
      OperandShape(l, pad);
      PrintMatched(r, pad);
      ComparisonMatched(Operand(l, pad), pad, op, Print(r, pad));
    case _ =>
      OperandShape(e, pad);
  }

  lemma ComparisonMatched(a: string, pad: string, op: Op, b: string)
    requires Matched(a) && Visible(a) && AllSpaces(pad) && Matched(b) && Visible(b)
    ensures Matched(a + pad + Symbol(op) + pad + b) && Visible(a + pad + Symbol(op) + pad + b)
  {
    var mid := pad + Symbol(op) + pad;
    OperatorIsFlat(pad, op);
    MatchedConcat(a, mid);
    MatchedConcat(a + mid, b);
    JoinedInto(a, pad, Symbol(op), b);
  }

  lemma OperatorIsFlat(pad: string, op: Op)
    requires AllSpaces(pad)
    ensures Matched(pad + Symbol(op) + pad)
  {
    PadIsFlat(pad);
    assert forall c :: c in Symbol(op) ==> c == '=' || c == '!';
    FlatMatched(pad + Symbol(op) + pad);
  }

  lemma JoinedInto(a: string, pad: string, sp: string, b: string)
    ensures a + (pad + sp + pad) + b == a + pad + sp + pad + b
    ensures Visible(a) && Visible(b) ==> Visible(a + pad + sp + pad + b)
  {
  }

  lemma PadIsFlat(pad: string)
    requires AllSpaces(pad)
    ensures Matched(pad) && Shielded(pad)
    ensures forall c :: c in pad ==> Plain(c)
  {
    forall c | c in pad
      ensures Plain(c)
    {
      var k :| 0 <= k < |pad| && pad[k] == c;
    }
    FlatMatched(pad);
  }

  /** The last character is something to see, and no operator. */
  ghost predicate FirmEnd(s: string) {
    s != "" && !IsSpace(s[|s| - 1]) && s[|s| - 1] != '=' && s[|s| - 1] != '!'
  }

  lemma {:induction false} AccsShape(accs: seq<Acc>, pad: string)
    requires AllSpaces(pad) && forall k :: 0 <= k < |accs| ==> WritableAcc(accs[k])
    ensures var s := PrintAccs(accs, pad);
            Matched(s) && Shielded(s) && (s != "" ==> FirmEnd(s))
    decreases accs, 0
  {
    if accs != [] {
      AccShape(accs[0], pad);
      AccsShape(accs[1..], pad);
      MatchedConcat(PrintAcc(accs[0], pad), PrintAccs(accs[1..], pad));
      ShieldedConcat(PrintAcc(accs[0], pad), PrintAccs(accs[1..], pad));
    } else {
      FlatMatched("");
    }
  }

  lemma {:induction false} AccShape(acc: Acc, pad: string)
    requires AllSpaces(pad) && WritableAcc(acc)
    ensures var s := PrintAcc(acc, pad);
            && Matched(s) && Shielded(s) && |s| >= 2 && (s[0] == '.' || s[0] == '[') && FirmEnd(s)
    decreases acc, 1
  {
    match acc
    case Field(name) =>
      IdentText(name);
      FlatMatched(".");
      MatchedConcat(".", name);
      ShieldedConcat(".", name);
    case Index(digits) =>
      DigitsAreDigits(digits, 0);
      forall c | c in digits
        ensures Plain(c)
      {
        var k :| 0 <= k < |digits| && digits[k] == c;
      }
      PlainText(digits);
      FlatMatched(".");
      MatchedConcat(".", digits);
      ShieldedConcat(".", digits);
    case Key(e) =>
      PrintMatched(e, pad);
      WrappedMatched('[', Print(e, pad), ']');
  }

  // ----- Reading written text back -----

  lemma NoEquality(s: string)
    requires Shielded(s)
    ensures EqualityFrom(s, 0).None?
  {
    EqualityFromIsFirst(s, 0);
  }

  lemma NotHidesNothing(s: string, i: nat)
    requires Shielded(s)
    ensures !EqualityAt("!" + s, i)
  {
    if i == 0 {
      assert ("!" + s)[..0] == "";
    } else if i <= |s| {
      DepthConcat(Both, "!", s, i);
      assert Depth(Both, "!", 1) == 0;
    }
  }

  lemma NoEqualityAfterNot(s: string)
    requires Shielded(s)
    ensures EqualityFrom("!" + s, 0).None?
  {
    EqualityFromIsFirst("!" + s, 0);
    forall i: nat
      ensures !EqualityAt("!" + s, i)
    {
      NotHidesNothing(s, i);
    }
  }

  /** Flat text of operators and spaces after an operand keeps everything in front of it unread. */
  lemma OperandHidesNothing(a: string, pad: string, right: string, i: nat)
    requires OperandText(a) && AllSpaces(pad) && i < |a + pad|
    ensures !EqualityAt(a + pad + right, i)
  {
    PadIsFlat(pad);
    ShieldedConcat(a, pad);
    DepthConcat(Both, a + pad, right, i);
    assert (a + pad + right)[i] == (a + pad)[i];
  }

  lemma EqualityBehindText(left: string, op: Op, tail: string)
    requires left != "" && Depth(Both, left, |left|) == 0 && Trim(left) != ""
    requires left[|left| - 1] != '=' && left[|left| - 1] != '!' && tail != "" && tail[0] != '='
    ensures EqualityAt(left + (Symbol(op) + tail), |left|)
  {
    DepthConcat(Both, left, Symbol(op) + tail, |left|);
  }

  /** An operand and the spaces behind it are text an operator may follow. */
  lemma PaddedOperand(a: string, pad: string)
    requires OperandText(a) && AllSpaces(pad)
    ensures var left := a + pad;
            && left != "" && Depth(Both, left, |left|) == 0 && Trim(left) == a
            && left[|left| - 1] != '=' && left[|left| - 1] != '!'
  {
    DepthConcat(Both, a, pad, |a + pad|);
    TrimAfter(a, pad);
    assert Balanced(Both, a);
    assert Balanced(Both, pad) && (pad != "" ==> Plain(pad[|pad| - 1])) by {
      PadIsFlat(pad);
    }
  }

  lemma EqualityFound(a: string, pad: string, op: Op, tail: string)
    requires OperandText(a) && AllSpaces(pad) && tail != "" && tail[0] != '='
    ensures EqualityFrom(a + pad + (Symbol(op) + tail), 0) == Some(Equality(|a + pad|, op))
  {
    EqualityFromIsFirst(a + pad + (Symbol(op) + tail), 0);
    PaddedOperand(a, pad);
    EqualityBehindText(a + pad, op, tail);
    forall i: nat | i < |a + pad|
      ensures !EqualityAt(a + pad + (Symbol(op) + tail), i)
    {
      OperandHidesNothing(a, pad, Symbol(op) + tail, i);
    }
  }

  lemma TrimVisible(s: string)
    requires Visible(s)
    ensures Trim(s) == s
  {
    assert "" + s + "" == s;
    TrimPadded("", s, "");
  }

  lemma TrimAfter(s: string, pad: string)
    requires Visible(s) && AllSpaces(pad)
    ensures Trim(s + pad) == s
  {
    assert "" + s + pad == s + pad;
    TrimPadded("", s, pad);
  }

  lemma TrimBefore(pad: string, s: string)
    requires Visible(s) && AllSpaces(pad)
    ensures Trim(pad + s) == s
  {
    assert pad + s + "" == pad + s;
    TrimPadded(pad, s, "");
  }

  lemma ResolveIgnoresSpaces(js: Js, vals: Value, s: string, pad: string)
    requires Visible(s) && AllSpaces(pad)
    ensures Resolve(js, vals, s + pad) == Resolve(js, vals, pad + s) == Resolve(js, vals, s)
  {
    TrimVisible(s);
    TrimAfter(s, pad);
    TrimBefore(pad, s);
  }

  lemma ResolveParenthesised(js: Js, vals: Value, s: string)
    requires Matched(s)
    ensures Resolve(js, vals, "(" + s + ")") == Resolve(js, vals, s)
  {
    var t := "(" + s + ")";
    TrimVisible(t);
    assert Balanced(Parens, s);
    forall i | 0 <= i < |t| - 1 && t[i] == ')'
      ensures Depth(Parens, t, i + 1) != 0
    {
      DepthWrapped(Parens, '(', s, ')', i + 1);
    }
    assert t[1..|t| - 1] == s;
  }

  /** What `resolve` does with text it finds an equality in. */
  lemma ResolveAtEquality(js: Js, vals: Value, t: string, eq: Equality, l: string, r: string)
    requires Visible(t) && (t[0] == '(' ==> !WrapsWhole(t)) && EqualityFrom(t, 0) == Some(eq)
    requires l == t[..eq.index] && r == t[eq.index + |Spelling(eq.op)|..]
    ensures Resolve(js, vals, t) == Compare(js, eq.op, Resolve(js, vals, l), Resolve(js, vals, r))
  {
    TrimVisible(t);
  }

  lemma ComparisonSplits(a: string, pad: string, sp: string, b: string)
    ensures var t := a + pad + sp + pad + b;
            && t == a + pad + (sp + (pad + b)) && t == a + (pad + sp + pad + b)
            && t[..|a + pad|] == a + pad && t[|a + pad| + |sp|..] == pad + b
  {
  }

  /** The parts of a comparison as written. */
  lemma ComparisonParts(a: string, pad: string, op: Op, b: string)
    requires OperandText(a) && ClosesAtEnd(a) && AllSpaces(pad) && Visible(b) && b[0] != '='
    ensures var t := a + pad + Symbol(op) + pad + b;
            && Visible(t) && (t[0] == '(' ==> !WrapsWhole(t))
            && EqualityFrom(t, 0) == Some(Equality(|a + pad|, op))
  {
    var sp := Symbol(op);
    ComparisonSplits(a, pad, sp, b);
    assert (pad + b)[0] == if pad == "" then b[0] else pad[0];
    EqualityFound(a, pad, op, pad + b);
    if a[0] == '(' {
      ClosedBeforeTheEnd(a, pad + sp + pad + b);
    }
  }

  lemma ResolveEquality(js: Js, vals: Value, a: string, pad: string, op: Op, b: string)
    requires OperandText(a) && ClosesAtEnd(a) && AllSpaces(pad) && Visible(b) && b[0] != '='
    ensures Resolve(js, vals, a + pad + Symbol(op) + pad + b) ==
            var x, y := Resolve(js, vals, a), Resolve(js, vals, b);
            match op
            case StrictEq => Bool(js.same(x, y))
            case StrictNe => Bool(!js.same(x, y))
            case LooseEq => Bool(js.loose(x, y))
            case LooseNe => Bool(!js.loose(x, y))
  {
    var t, eq := a + pad + Symbol(op) + pad + b, Equality(|a + pad|, op);
    assert Symbol(op) == Spelling(op);
    ComparisonParts(a, pad, op, b);
    ComparisonSplits(a, pad, Symbol(op), b);
    ComparisonResolves(js, vals, t, eq, a + pad, pad + b);
    ResolveIgnoresSpaces(js, vals, a, pad);
    ResolveIgnoresSpaces(js, vals, b, pad);
  }

  lemma ComparisonResolves(js: Js, vals: Value, t: string, eq: Equality, l: string, r: string)
    requires Visible(t) && (t[0] == '(' ==> !WrapsWhole(t)) && EqualityFrom(t, 0) == Some(eq)
    requires l == t[..eq.index] && r == t[eq.index + |Spelling(eq.op)|..]
    ensures Resolve(js, vals, t) ==
            var x, y := Resolve(js, vals, l), Resolve(js, vals, r);
            match eq.op
            case StrictEq => Bool(js.same(x, y))
            case StrictNe => Bool(!js.same(x, y))
            case LooseEq => Bool(js.loose(x, y))
            case LooseNe => Bool(!js.loose(x, y))
  {
    ResolveAtEquality(js, vals, t, eq, l, r);
  }

  /** The four operators, as they are written and as they compare. */
  lemma FourOperators(js: Js, vals: Value, a: string, pad: string, b: string)
    requires OperandText(a) && ClosesAtEnd(a) && AllSpaces(pad) && Visible(b) && b[0] != '='
    ensures var x, y := Resolve(js, vals, a), Resolve(js, vals, b);
            && Resolve(js, vals, a + pad + "===" + pad + b) == Bool(js.same(x, y))
            && Resolve(js, vals, a + pad + "!==" + pad + b) == Bool(!js.same(x, y))
            && Resolve(js, vals, a + pad + "==" + pad + b) == Bool(js.loose(x, y))
            && Resolve(js, vals, a + pad + "!=" + pad + b) == Bool(!js.loose(x, y))
  {
    ResolveEquality(js, vals, a, pad, StrictEq, b);
    ResolveEquality(js, vals, a, pad, StrictNe, b);
    ResolveEquality(js, vals, a, pad, LooseEq, b);
    ResolveEquality(js, vals, a, pad, LooseNe, b);
  }

  /** A leading operand whose parenthesis closes before the end does not wrap the whole text. */
  lemma ClosedBeforeTheEnd(a: string, rest: string)
    requires a != "" && a[|a| - 1] == ')' && Depth(Parens, a, |a|) == 0 && rest != ""
    ensures !WrapsWhole(a + rest)
  {
    DepthConcat(Parens, a, rest, |a|);
    var i := |a| - 1;
    assert (a + rest)[i] == ')' && Depth(Parens, a + rest, i + 1) == 0;
  }

  /** What `resolve` does with text that is neither parenthesised, compared nor empty. */
  lemma ResolveAtom(js: Js, vals: Value, s: string)
    requires Visible(s) && s[0] != '(' && EqualityFrom(s, 0).None?
    ensures Resolve(js, vals, s) ==
            if s[0] == '!' then Bool(!js.truthy(Resolve(js, vals, s[1..])))
            else if s == "true" then Bool(true)
            else if s == "false" then Bool(false)
            else if s == "null" then Null
            else if s == "undefined" then Undefined
            else if IsNumber(s) then js.number(s)
            else if IsQuoted(s) then Str(s[1..|s| - 1])
            else PathValue(js, vals, s)
  {
    TrimVisible(s);
  }

  /** An operand resolves to what its tree means once its printed form does. */
  lemma OperandResolves(js: Js, vals: Value, e: Tree, pad: string)
    requires Writable(e) && AllSpaces(pad)
    requires Resolve(js, vals, Print(e, pad)) == Eval(js, vals, e)
    ensures Resolve(js, vals, Operand(e, pad)) == Eval(js, vals, e)
  {
    if e.Eq? {
      PrintMatched(e, pad);
      ResolveParenthesised(js, vals, Print(e, pad));
    }
  }

  /**
   Writing an expression and resolving the text gives what the expression means, for every engine,
   every scope, every tree that can be written and any spacing around its operators.
   */
  lemma {:induction false} ResolveReadsBack(js: Js, vals: Value, e: Tree, pad: string)
    requires Writable(e) && AllSpaces(pad)
    ensures Resolve(js, vals, Print(e, pad)) == Eval(js, vals, e)
    decreases e, 0
  {
    match e
    case Not(inner) =>
      var o := Operand(inner, pad);
      OperandShape(inner, pad);
      NoEqualityAfterNot(o);
      ResolveAtom(js, vals, "!" + o);
      assert ("!" + o)[1..] == o;
      ResolveReadsBack(js, vals, inner, pad);
      OperandResolves(js, vals, inner, pad);
    case Eq(op, l, r) =>
      OperandShape(l, pad);
      PrintMatched(r, pad);
      ResolveEquality(js, vals, Operand(l, pad), pad, op, Print(r, pad));
      ResolveReadsBack(js, vals, l, pad);
      OperandResolves(js, vals, l, pad);
      ResolveReadsBack(js, vals, r, pad);
    case Group(inner) =>
      PrintMatched(inner, pad);
      ResolveParenthesised(js, vals, Print(inner, pad));
      ResolveReadsBack(js, vals, inner, pad);
    case Path(head, accs) =>
      PathReadsBack(js, vals, head, accs, pad);
    case Number(text) =>
      NumberText(text);
      NoEquality(text);
      ResolveAtom(js, vals, text);
    case Quoted(quote, content) =>
      var s := [quote] + content + [quote];
      QuotedText(quote, content);
      NoEquality(s);
      QuotedAtom(js, vals, quote, content);
    case _ =>
      AtomShape(e, pad);
      NoEquality(Print(e, pad));
      ResolveAtom(js, vals, Print(e, pad));
  }

  /** A path as written is no other kind of atom, and starts with its head. */
  lemma PathText(head: string, accs: seq<Acc>, pad: string)
    requires Writable(Path(head, accs)) && AllSpaces(pad)
    ensures var s := head + PrintAccs(accs, pad);
            && Visible(s) && s[0] != '(' && s[0] != '!' && EqualityFrom(s, 0).None?
            && !IsKeyword(s) && !IsNumber(s) && !IsQuoted(s)
            && IdentLen(s, 0) == |head| && s[..|head|] == head && head != ""
  {
    var s := head + PrintAccs(accs, pad);
    assert s == Print(Path(head, accs), pad);
    AtomShape(Path(head, accs), pad);
    IdentText(head);
    NoEquality(s);
    if accs != [] {
      AccShape(accs[0], pad);
      assert PrintAccs(accs, pad)[0] == PrintAcc(accs[0], pad)[0];
    }
    HeadText(head, PrintAccs(accs, pad));
  }

  lemma HeadText(head: string, after: string)
    requires IsIdent(head) && (after == "" || after[0] == '.' || after[0] == '[')
    requires after == "" ==> !IsKeyword(head)
    ensures var s := head + after;
            && s[0] != '!' && !IsKeyword(s) && !IsNumber(s) && !IsQuoted(s)
            && IdentLen(s, 0) == |head| && s[..|head|] == head && head != ""
  {
    var s := head + after;
    IdentText(head);
    IdentEnds(head, after);
    assert s[0] == head[0] && IsIdentStart(s[0]);
    if after != "" {
      assert s[|head|] == after[0];
      if IsKeyword(s) {
        KeywordLetters(s);
        assert false;
      }
    } else {
      assert s == head;
    }
  }

  lemma KeywordLetters(s: string)
    requires IsKeyword(s)
    ensures forall k :: 0 <= k < |s| ==> IsIdentStart(s[k])
  {
  }

  lemma {:induction false} PathReadsBack(js: Js, vals: Value, head: string, accs: seq<Acc>, pad: string)
    requires Writable(Path(head, accs)) && AllSpaces(pad)
    ensures Resolve(js, vals, head + PrintAccs(accs, pad)) == EvalAccs(js, vals, Member(js, vals, Str(head)), accs)
    decreases accs, 2
  {
    PathText(head, accs, pad);
    FollowReadsBack(js, vals, Prop(js, vals, Str(head)), head, accs, "", pad);
    assert head + PrintAccs(accs, pad) + "" == head + PrintAccs(accs, pad);
    ResolveAtom(js, vals, head + PrintAccs(accs, pad));
  }

  /** Text that no identifier or index in front of it runs on into. */
  predicate Stops(rest: string) {
    rest == "" || !IsIdentPart(rest[0])
  }

  /** The accesses of a path, written between `done` and `rest`, lead where they should. */
  lemma {:induction false} FollowReadsBack(
    js: Js, vals: Value, cur: Value, done: string, accs: seq<Acc>, rest: string, pad: string)
    requires AllSpaces(pad) && Stops(rest) && forall k :: 0 <= k < |accs| ==> WritableAcc(accs[k])
    ensures Follow(js, vals, cur, done + PrintAccs(accs, pad) + rest, |done|) ==
            Follow(js, vals, EvalAccs(js, vals, cur, accs), done + PrintAccs(accs, pad) + rest,
                   |done + PrintAccs(accs, pad)|)
    decreases accs, 1
  {
    if accs != [] {
      var text, more := PrintAcc(accs[0], pad), PrintAccs(accs[1..], pad);
      var next := Member(js, cur, EvalKey(js, vals, accs[0]));
      AccsStop(accs[1..], rest, pad);
      AccessReadsBack(js, vals, cur, done, accs[0], more + rest, pad);
      FollowReadsBack(js, vals, next, done + text, accs[1..], rest, pad);
      Regrouped(done, text, more, rest);
    }
  }

  lemma Regrouped(done: string, text: string, more: string, rest: string)
    ensures done + (text + more) + rest == done + text + (more + rest) == (done + text) + more + rest
    ensures done + (text + more) == (done + text) + more
  {
  }

  lemma AccsStop(accs: seq<Acc>, rest: string, pad: string)
    requires AllSpaces(pad) && Stops(rest) && forall k :: 0 <= k < |accs| ==> WritableAcc(accs[k])
    ensures Stops(PrintAccs(accs, pad) + rest)
  {
    if accs != [] {
      AccShape(accs[0], pad);
      assert (PrintAccs(accs, pad) + rest)[0] == PrintAcc(accs[0], pad)[0];
    } else {
      assert "" + rest == rest;
    }
  }

  lemma {:induction false} AccessReadsBack(js: Js, vals: Value, cur: Value, done: string, acc: Acc, rest: string,
                                           pad: string)
    requires AllSpaces(pad) && WritableAcc(acc) && Stops(rest)
    ensures PrintAcc(acc, pad) != ""
    ensures Access(js, vals, cur, done + PrintAcc(acc, pad) + rest, |done|) ==
            Some(Walk(Prop(js, cur, EvalKey(js, vals, acc)), |done + PrintAcc(acc, pad)|))
    decreases acc, 1
  {
    match acc
    case Field(name) => FieldReadsBack(js, vals, cur, done, name, rest);
    case Index(digits) => IndexReadsBack(js, vals, cur, done, digits, rest);
    case Key(e) =>
      PrintMatched(e, pad);
      KeyReadsBack(js, vals, cur, done, Print(e, pad), rest);
      ResolveReadsBack(js, vals, e, pad);
  }

  lemma DottedAccess(js: Js, vals: Value, cur: Value, expr: string, i: nat)
    requires i < |expr| && expr[i] == '.'
    ensures var n := if IdentLen(expr, i + 1) > 0 then IdentLen(expr, i + 1) else DigitsLen(expr, i + 1);
            n > 0 ==> Access(js, vals, cur, expr, i) ==
                      Some(Walk(Prop(js, cur, Str(expr[i + 1..i + 1 + n])), i + 1 + n))
  {
  }

  lemma FieldText(done: string, name: string, rest: string)
    requires IsIdent(name) && Stops(rest)
    ensures var expr := done + ("." + name) + rest;
            var i := |done|;
            && i < |expr| && expr[i] == '.' && IdentLen(expr, i + 1) == |name| > 0
            && expr[i + 1..i + 1 + |name|] == name
  {
    var expr := done + ("." + name) + rest;
    assert expr == (done + ".") + name + rest;
    IdentText(name);
    PartsEnd(done + ".", name, rest, 0);
    assert expr[|done| + 1] == name[0];
  }

  lemma FieldReadsBack(js: Js, vals: Value, cur: Value, done: string, name: string, rest: string)
    requires IsIdent(name) && Stops(rest)
    ensures Access(js, vals, cur, done + ("." + name) + rest, |done|) ==
            Some(Walk(Prop(js, cur, Str(name)), |done + ("." + name)|))
  {
    FieldText(done, name, rest);
    DottedAccess(js, vals, cur, done + ("." + name) + rest, |done|);
  }

  lemma IndexText(done: string, digits: string, rest: string)
    requires digits != "" && DigitsLen(digits, 0) == |digits| && Stops(rest)
    ensures var expr := done + ("." + digits) + rest;
            var i := |done|;
            && i < |expr| && expr[i] == '.' && IdentLen(expr, i + 1) == 0 && DigitsLen(expr, i + 1) == |digits|
            && expr[i + 1..i + 1 + |digits|] == digits
  {
    var expr := done + ("." + digits) + rest;
    assert expr == (done + ".") + digits + rest;
    DigitsAreDigits(digits, 0);
    DigitsEnd(done + ".", digits, rest, 0);
    assert expr[|done| + 1] == digits[0] && IsDigit(digits[0]);
  }

  lemma IndexReadsBack(js: Js, vals: Value, cur: Value, done: string, digits: string, rest: string)
    requires digits != "" && DigitsLen(digits, 0) == |digits| && Stops(rest)
    ensures Access(js, vals, cur, done + ("." + digits) + rest, |done|) ==
            Some(Walk(Prop(js, cur, Str(digits)), |done + ("." + digits)|))
  {
    IndexText(done, digits, rest);
    DottedAccess(js, vals, cur, done + ("." + digits) + rest, |done|);
  }

  lemma KeyText(done: string, key: string, rest: string)
    requires Balanced(Brackets, key)
    ensures var expr := done + ("[" + key + "]") + rest;
            var i := |done|;
            && i < |expr| && expr[i] == '[' && ClosingBracket(expr, i + 1, 1) == Some(i + 1 + |key|)
            && expr[i + 1..i + 1 + |key|] == key
  {
    var expr := done + ("[" + key + "]") + rest;
    assert expr == (done + "[") + key + ("]" + rest);
    BracketCloses(done + "[", key, rest, 0);
  }

  lemma BracketAccess(js: Js, vals: Value, cur: Value, expr: string, i: nat)
    requires i < |expr| && expr[i] == '[' && ClosingBracket(expr, i + 1, 1).Some?
    ensures var j := ClosingBracket(expr, i + 1, 1).value;
            Access(js, vals, cur, expr, i) == Some(Walk(Prop(js, cur, Resolve(js, vals, expr[i + 1..j])), j + 1))
  {
  }

  lemma KeyReadsBack(js: Js, vals: Value, cur: Value, done: string, key: string, rest: string)
    requires Balanced(Brackets, key)
    ensures Access(js, vals, cur, done + ("[" + key + "]") + rest, |done|) ==
            Some(Walk(Prop(js, cur, Resolve(js, vals, key)), |done + ("[" + key + "]")|))
  {
    KeyText(done, key, rest);
    BracketAccess(js, vals, cur, done + ("[" + key + "]") + rest, |done|);
  }

  /** The bracket in front of text whose brackets match is closed right behind that text. */
  lemma {:induction false} BracketCloses(before: string, s: string, after: string, j: nat)
    requires Balanced(Brackets, s) && j <= |s|
    ensures ClosingBracket(before + s + ("]" + after), |before| + j, 1 + Depth(Brackets, s, j)) == Some(|before + s|)
    decreases |s| - j
  {
    var expr := before + s + ("]" + after);
    if j < |s| {
      assert expr[|before| + j] == s[j];
      assert Depth(Brackets, s, j + 1) == Depth(Brackets, s, j) + Weight(Brackets, s[j]) >= 0;
      BracketCloses(before, s, after, j + 1);
    } else {
      assert expr[|before| + j] == ']';
    }
  }

  /** An identifier ends where something that is no part of one follows. */
  lemma IdentEnds(name: string, after: string)
    requires IsIdent(name) && (after == "" || !IsIdentPart(after[0]))
    ensures IdentLen(name + after, 0) == |name|
  {
    IdentText(name);
    PartsEnd("", name, after, 0);
    assert "" + name + after == name + after;
  }

  lemma {:induction false} PartsEnd(before: string, name: string, after: string, i: nat)
    requires i <= |name| && (forall k :: i <= k < |name| ==> IsIdentPart(name[k]))
    requires after == "" || !IsIdentPart(after[0])
    ensures PartsLen(before + name + after, |before| + i) == |name| - i
    decreases |name| - i
  {
    if i < |name| {
      PartsEnd(before, name, after, i + 1);
    }
  }

  lemma {:induction false} DigitsEnd(before: string, digits: string, after: string, i: nat)
    requires i <= |digits| && (forall k :: i <= k < |digits| ==> IsDigit(digits[k]))
    requires after == "" || !IsDigit(after[0])
    ensures DigitsLen(before + digits + after, |before| + i) == |digits| - i
    decreases |digits| - i
  {
    if i < |digits| {
      DigitsEnd(before, digits, after, i + 1);
    }
  }

  // ----- What is no expression -----

  /** Nothing but spaces is undefined. */
  lemma BlankIsUndefined(js: Js, vals: Value, s: string)
    requires AllSpaces(s)
    ensures Resolve(js, vals, s) == Undefined
  {
    TrimCuts(s);
  }

  /** A path that does not start with an identifier is undefined. */
  lemma HeadlessIsUndefined(js: Js, vals: Value, expr: string)
    requires expr == "" || !IsIdentStart(expr[0])
    ensures PathValue(js, vals, expr) == Undefined
  {
  }

  lemma {:induction false} UnclosedBracket(before: string, rest: string, j: nat)
    requires 1 <= j <= |rest| && forall i :: 1 <= i <= |rest| ==> Depth(Brackets, rest, i) > 0
    ensures ClosingBracket(before + rest, |before| + j, Depth(Brackets, rest, j)) == None
    decreases |rest| - j
  {
    if j < |rest| {
      assert (before + rest)[|before| + j] == rest[j];
      assert Depth(Brackets, rest, j + 1) == Depth(Brackets, rest, j) + Weight(Brackets, rest[j]);
      UnclosedBracket(before, rest, j + 1);
    }
  }

  /** What cannot go on a path: no access at all, a dot without a name or an index, a bracket left open. */
  ghost predicate NoAccess(rest: string) {
    rest != "" &&
    match rest[0]
    case '.' => |rest| == 1 || !IsIdentPart(rest[1])
    case '[' => forall i :: 1 <= i <= |rest| ==> Depth(Brackets, rest, i) > 0
    case c => !IsIdentPart(c)
  }

  /** A path that breaks off in such text is undefined, whatever it named so far. */
  lemma MalformedPathIsUndefined(js: Js, vals: Value, head: string, accs: seq<Acc>, rest: string, pad: string)
    requires IsIdent(head) && AllSpaces(pad) && (forall k :: 0 <= k < |accs| ==> WritableAcc(accs[k])) && NoAccess(rest)
    ensures PathValue(js, vals, head + PrintAccs(accs, pad) + rest) == Undefined
  {
    var done := head + PrintAccs(accs, pad);
    var expr := done + rest;
    assert Stops(rest);
    FollowReadsBack(js, vals, Prop(js, vals, Str(head)), head, accs, rest, pad);
    BrokenAccess(js, vals, EvalAccs(js, vals, Prop(js, vals, Str(head)), accs), done, rest);
    AccsStop(accs, rest, pad);
    IdentEnds(head, PrintAccs(accs, pad) + rest);
    assert expr == head + (PrintAccs(accs, pad) + rest);
  }

  lemma BrokenAccess(js: Js, vals: Value, cur: Value, done: string, rest: string)
    requires NoAccess(rest)
    ensures Access(js, vals, cur, done + rest, |done|).None?
  {
    var expr := done + rest;
    assert expr[|done|] == rest[0];
    if rest[0] == '[' {
      assert Depth(Brackets, rest, 1) == 1;
      UnclosedBracket(done, rest, 1);
    } else if rest[0] == '.' && |rest| > 1 {
      assert expr[|done| + 1] == rest[1];
    }
  }

  // ----- The lexical classes -----

  /** How many brackets and parentheses more have opened than closed. */
  function Opened(s: string): int {
    if s == "" then 0
    else
      var m := |s| - 1;
      Opened(s[..m]) + if s[m] in "([" then 1 else if s[m] in ")]" then -1 else 0
  }

  lemma {:induction false} DepthIsOpened(s: string, i: nat)
    requires i <= |s|
    ensures Depth(Both, s, i) == Opened(s[..i])
  {
    if i > 0 {
      DepthIsOpened(s, i - 1);
      assert s[..i][..i - 1] == s[..i - 1] && s[..i][i - 1] == s[i - 1];
    }
  }

  /** An operator: `==` or `!=` outside brackets, behind something to see that is not `=` or `!` itself. */
  lemma OperatorsAre(s: string, i: nat)
    ensures EqualityAt(s, i) <==>
            && i + 1 < |s| && s[i] in "=!" && s[i + 1] == '=' && Opened(s[..i]) == 0
            && !AllSpaces(s[..i]) && s[i - 1] !in "=!"
  {
    if i < |s| {
      DepthIsOpened(s, i);
      TrimCuts(s[..i]);
    }
  }

  /** It is strict exactly if a third `=` or, behind `!=`, a second one follows. */
  lemma OperatorsRead(s: string, i: nat)
    requires i + 1 < |s| && s[i] in "=!" && s[i + 1] == '='
    ensures EqualityOp(s, i) == (
            if i + 3 <= |s| && s[i..i + 3] == "===" then StrictEq
            else if i + 3 <= |s| && s[i..i + 3] == "!==" then StrictNe
            else if s[i..i + 2] == "==" then LooseEq
            else LooseNe)
  {
  }

  /** Quoted text stands between two quotes of one kind. */
  lemma QuotesAre(s: string)
    ensures IsQuoted(s) <==> |s| >= 2 && (s == "\"" + s[1..|s| - 1] + "\"" || s == "'" + s[1..|s| - 1] + "'")
  {
    if |s| >= 2 {
      assert s == [s[0]] + s[1..|s| - 1] + [s[|s| - 1]];
    }
  }

  lemma CharacterClasses(c: char)
    ensures IsDigit(c) <==> c in DIGITS
    ensures IsIdentStart(c) <==> c in UPPER || c in LOWER || c in "_$"
    ensures IsIdentPart(c) <==> c in UPPER || c in LOWER || c in "_$" || c in DIGITS
  {
    LettersAre(c);
  }

  ghost predicate AllDigits(s: string) {
    s != "" && forall k :: 0 <= k < |s| ==> s[k] in DIGITS
  }

  lemma {:induction false} DigitsRun(before: string, digits: string, after: string, i: nat)
    requires i <= |digits| && (forall k :: 0 <= k < |digits| ==> digits[k] in DIGITS)
    requires after == "" || after[0] !in DIGITS
    ensures DigitsLen(before + digits + after, |before| + i) == |digits| - i
    decreases |digits| - i
  {
    if i < |digits| {
      DigitsRun(before, digits, after, i + 1);
    }
  }

  /** A number is digits, with a minus sign in front or not, and behind them nothing or a point and digits. */
  lemma NumbersAre(sign: string, whole: string, fraction: string)
    requires (sign == "" || sign == "-") && AllDigits(whole) && (fraction == "" || AllDigits(fraction))
    ensures IsNumber(sign + whole + if fraction == "" then "" else "." + fraction)
  {
    var after := if fraction == "" then "" else "." + fraction;
    var s := sign + whole + after;
    DigitsRun(sign, whole, after, 0);
    if fraction != "" {
      DigitsRun(sign + whole + ".", fraction, "", 0);
      assert s == sign + whole + "." + fraction + "";
    }
  }

  /** Nothing else is. */
  lemma NumbersAreOnly(s: string) returns (sign: string, whole: string, fraction: string)
    requires IsNumber(s)
    ensures (sign == "" || sign == "-") && AllDigits(whole) && (fraction == "" || AllDigits(fraction))
    ensures s == sign + whole + if fraction == "" then "" else "." + fraction
  {
    var from := if s[0] == '-' then 1 else 0;
    var dot := from + DigitsLen(s, from);
    DigitsAreDigits(s, from);
    sign, whole := s[..from], s[from..dot];
    if dot == |s| {
      fraction := "";
    } else {
      DigitsAreDigits(s, dot + 1);
      fraction := s[dot + 1..];
    }
  }

  // ----- Where reading back fails -----

  /** An equality operator stands in `content` outside its brackets, behind no other operator character. */
  ghost predicate OperatorAt(content: string, i: nat) {
    && i + 1 < |content| && (content[i] == '=' || content[i] == '!') && content[i + 1] == '='
    && Depth(Both, content, i) == 0
    && (i == 0 || (content[i - 1] != '=' && content[i - 1] != '!'))
  }

  lemma {:induction false} TrimKeeps(s: string)
    requires s != "" && !IsSpace(s[0])
    ensures Trim(s) != ""
    decreases |s|
  {
    if IsSpace(s[|s| - 1]) {
      TrimKeeps(s[..|s| - 1]);
    }
  }

  /** Between quotes, the evaluator finds the operators that stand in the content, one place further on. */
  lemma OperatorInQuotes(quote: char, content: string, i: nat)
    requires quote == '"' || quote == '\''
    ensures !EqualityAt([quote] + content + [quote], 0)
    ensures EqualityAt([quote] + content + [quote], i + 1) <==> OperatorAt(content, i)
  {
    var s := [quote] + content + [quote];
    if i < |content| {
      assert Depth(Both, [quote], 1) == 0;
      DepthConcat(Both, [quote], content, i + 1);
      DepthConcat(Both, [quote] + content, [quote], i + 1);
      TrimKeeps(s[..i + 1]);
    }
  }

  /**
   A quoted string resolves to its content exactly when no equality operator stands in it outside brackets:
   the evaluator looks for operators before it looks for quotes.
   */
  lemma QuotedReadsBackIff(js: Js, vals: Value, quote: char, content: string)
    requires quote == '"' || quote == '\''
    ensures Resolve(js, vals, [quote] + content + [quote]) == Str(content) <==>
            forall i: nat :: !OperatorAt(content, i)
  {
    var s := [quote] + content + [quote];
    FoundInQuotesIff(quote, content);
    match EqualityFrom(s, 0)
    case Some(eq) => ResolveAtEquality(js, vals, s, eq, s[..eq.index], s[eq.index + |Spelling(eq.op)|..]);
    case None => QuotedAtom(js, vals, quote, content);
  }

  lemma FoundInQuotesIff(quote: char, content: string)
    requires quote == '"' || quote == '\''
    ensures EqualityFrom([quote] + content + [quote], 0).None? <==> forall i: nat :: !OperatorAt(content, i)
  {
    var s := [quote] + content + [quote];
    EqualityFromIsFirst(s, 0);
    match EqualityFrom(s, 0)
    case Some(eq) => OperatorInQuotes(quote, content, if eq.index == 0 then 0 else eq.index - 1);
    case None =>
      forall i: nat
        ensures !OperatorAt(content, i)
      {
        OperatorInQuotes(quote, content, i);
      }
  }

  lemma QuotedAtom(js: Js, vals: Value, quote: char, content: string)
    requires (quote == '"' || quote == '\'') && EqualityFrom([quote] + content + [quote], 0).None?
    ensures Resolve(js, vals, [quote] + content + [quote]) == Str(content)
  {
    var s := [quote] + content + [quote];
    assert s[0] == quote && s[1..|s| - 1] == content;
    ResolveAtom(js, vals, s);
  }

  /** Such a string exists: the text `'a==b'` never resolves to its content. */
  lemma QuotedEqualityIsMisread(js: Js, vals: Value)
    ensures Resolve(js, vals, "'a==b'") != Str("a==b")
  {
    assert "'a==b'" == ['\''] + "a==b" + ['\''];
    FlatDepth(Both, "a==b", 1);
    assert OperatorAt("a==b", 1);
    QuotedReadsBackIff(js, vals, '\'', "a==b");
  }
}
