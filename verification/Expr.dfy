/** The template expression evaluator: `resolve` and the helpers it reads its text with. */
module Expr {
  import opened Text

  // ----- Values; property access, comparison, truth and number parsing are the engine's -----

  datatype Value = Undefined | Null | Bool(b: bool) | Str(s: string) | Engine(id: nat)

  datatype Js = Js(
    get: (Value, Value) -> Value,
    same: (Value, Value) -> bool,
    loose: (Value, Value) -> bool,
    truthy: Value -> bool,
    number: string -> Value)

  /** `v == null ? undefined : v[key]` */
  function Prop(js: Js, v: Value, key: Value): Value {
    if v.Undefined? || v.Null? then Undefined else js.get(v, key)
  }

  datatype Op = StrictEq | StrictNe | LooseEq | LooseNe

  function Compare(js: Js, op: Op, l: Value, r: Value): Value {
    match op
    case StrictEq => Bool(js.same(l, r))
    case StrictNe => Bool(!js.same(l, r))
    case LooseEq => Bool(js.loose(l, r))
    case LooseNe => Bool(!js.loose(l, r))
  }

  function Spelling(op: Op): string {
    match op
    case StrictEq => "==="
    case StrictNe => "!=="
    case LooseEq => "=="
    case LooseNe => "!="
  }

  // ----- Reading characters -----

  predicate IsDigit(c: char) {
    '0' <= c <= '9'
  }

  predicate IsIdentStart(c: char) {
    'A' <= c <= 'Z' || 'a' <= c <= 'z' || c == '_' || c == '$'
  }

  predicate IsIdentPart(c: char) {
    IsIdentStart(c) || IsDigit(c)
  }

  /** How many characters from `i` on are identifier parts. */
  function PartsLen(s: string, i: nat): (n: nat)
    ensures i <= |s| ==> i + n <= |s|
    decreases |s| - i
  {
    if i < |s| && IsIdentPart(s[i]) then 1 + PartsLen(s, i + 1) else 0
  }

  /** The length of the identifier that starts at `i`; 0 when none does. */
  function IdentLen(s: string, i: nat): (n: nat)
    ensures i <= |s| ==> i + n <= |s|
  {
    if i < |s| && IsIdentStart(s[i]) then PartsLen(s, i) else 0
  }

  function DigitsLen(s: string, i: nat): (n: nat)
    ensures i <= |s| ==> i + n <= |s|
    decreases |s| - i
  {
    if i < |s| && IsDigit(s[i]) then 1 + DigitsLen(s, i + 1) else 0
  }

  /** `/^-?\d+(\.\d+)?$/` */
  predicate IsNumber(s: string) {
    var from := if s != "" && s[0] == '-' then 1 else 0;
    var dot := from + DigitsLen(s, from);
    dot > from &&
    (dot == |s| || (s[dot] == '.' && DigitsLen(s, dot + 1) > 0 && dot + 1 + DigitsLen(s, dot + 1) == |s|))
  }

  predicate IsQuoted(s: string) {
    |s| >= 2 && (s[0] == '"' || s[0] == '\'') && s[|s| - 1] == s[0]
  }

  // ----- Nesting -----

  datatype Nesting = Parens | Brackets | Both

  function Weight(w: Nesting, c: char): int {
    match c
    case '(' => if w.Brackets? then 0 else 1
    case ')' => if w.Brackets? then 0 else -1
    case '[' => if w.Parens? then 0 else 1
    case ']' => if w.Parens? then 0 else -1
    case _ => 0
  }

  /** The nesting depth in front of index `i`. */
  function Depth(w: Nesting, s: string, i: nat): int
    requires i <= |s|
  {
    if i == 0 then 0 else Depth(w, s, i - 1) + Weight(w, s[i - 1])
  }

  /** The parenthesis that opens the text stays open until its last character. */
  predicate WrapsWhole(s: string) {
    forall i | 0 <= i < |s| - 1 :: s[i] == ')' ==> Depth(Parens, s, i + 1) != 0
  }

  method ParensWrapWhole(expr: string) returns (r: bool)
    ensures r <==> WrapsWhole(expr)
  {
    var depth, i := 0, 0;
    while i < |expr| - 1
      invariant 0 <= i && (i <= |expr| - 1 || i == 0) && depth == Depth(Parens, expr, i)
      invariant forall k :: 0 <= k < i && expr[k] == ')' ==> Depth(Parens, expr, k + 1) != 0
    {
      if expr[i] == '(' {
        depth := depth + 1;
      } else if expr[i] == ')' {
        depth := depth - 1;
        if depth == 0 {
          return false;
        }
      }
      i := i + 1;
    }
    return true;
  }

  /** An equality operator outside all nesting, with an operand in front, starts at `i`. */
  predicate EqualityAt(s: string, i: nat) {
    && i + 1 < |s| && (s[i] == '=' || s[i] == '!') && s[i + 1] == '='
    && Depth(Both, s, i) == 0
    && (i == 0 || (s[i - 1] != '=' && s[i - 1] != '!'))
    && Trim(s[..i]) != ""
  }

  datatype Equality = Equality(index: nat, op: Op)

  function EqualityOp(s: string, i: nat): Op
    requires i < |s|
  {
    if i + 2 < |s| && s[i + 2] == '=' then (if s[i] == '=' then StrictEq else StrictNe)
    else if s[i] == '=' then LooseEq else LooseNe
  }

  /** The first equality operator at or after `from`. */
  function EqualityFrom(s: string, from: nat): (r: Option<Equality>)
    ensures r.Some? ==> from <= r.value.index < |s| && r.value.index + |Spelling(r.value.op)| <= |s|
    decreases |s| - from
  {
    if from >= |s| then None
    else if EqualityAt(s, from) then Some(Equality(from, EqualityOp(s, from)))
    else EqualityFrom(s, from + 1)
  }

  lemma {:induction false} EqualityFromIsFirst(s: string, from: nat)
    ensures var r := EqualityFrom(s, from);
            && (r.Some? ==>
                  && EqualityAt(s, r.value.index) && r.value.op == EqualityOp(s, r.value.index)
                  && forall i: nat :: from <= i < r.value.index ==> !EqualityAt(s, i))
            && (r.None? ==> forall i: nat :: from <= i ==> !EqualityAt(s, i))
    decreases |s| - from
  {
    if from < |s| && !EqualityAt(s, from) {
      EqualityFromIsFirst(s, from + 1);
    }
  }

  method FindTopLevelEquality(expr: string) returns (r: Option<Equality>)
    ensures r == EqualityFrom(expr, 0)
  {
    var depth := 0;
    var i: nat := 0;
    while i < |expr|
      invariant i <= |expr| && depth == Depth(Both, expr, i)
      invariant EqualityFrom(expr, 0) == EqualityFrom(expr, i)
    {
      var c := expr[i];
      assert Depth(Both, expr, i + 1) == depth + Weight(Both, c);
      if c == '[' || c == '(' {
        depth := depth + 1;
      } else if c == ']' || c == ')' {
        depth := depth - 1;
      } else if depth == 0 && (c == '=' || c == '!') && i + 1 < |expr| && expr[i + 1] == '=' {
        if i > 0 && (expr[i - 1] == '=' || expr[i - 1] == '!') {
          i := i + 1;
          continue;
        }
        if Trim(expr[..i]) == "" {
          i := i + 1;
          continue;
        }
        return Some(Equality(i, EqualityOp(expr, i)));
      }
      i := i + 1;
    }
    return None;
  }

  /** The bracket that brings `depth` open brackets back to none, looked for from `j` on. */
  function ClosingBracket(s: string, j: nat, depth: nat): (r: Option<nat>)
    ensures r.Some? ==> j <= r.value < |s|
    decreases |s| - j
  {
    if j >= |s| then None
    else if s[j] == '[' then ClosingBracket(s, j + 1, depth + 1)
    else if s[j] == ']' then if depth <= 1 then Some(j) else ClosingBracket(s, j + 1, depth - 1)
    else ClosingBracket(s, j + 1, depth)
  }

  // ----- Resolving -----

  function Resolve(js: Js, vals: Value, src: string): Value
    decreases |src|, 4, 0
  {
    ResolveTrimmed(js, vals, Trim(src))
  }

  /** `resolve` past its call of `trim`. */
  function ResolveTrimmed(js: Js, vals: Value, expr: string): Value
    decreases |expr|, 3, 0
  {
    if expr == "" then Undefined
    else if expr[0] == '(' && expr[|expr| - 1] == ')' && WrapsWhole(expr) then
      Resolve(js, vals, expr[1..|expr| - 1])
    else
      match EqualityFrom(expr, 0)
      case Some(eq) =>
        var l := Resolve(js, vals, expr[..eq.index]);
        var r := Resolve(js, vals, expr[eq.index + |Spelling(eq.op)|..]);
        Compare(js, eq.op, l, r)
      case None =>
        if expr[0] == '!' then Bool(!js.truthy(Resolve(js, vals, expr[1..])))
        else if expr == "true" then Bool(true)
        else if expr == "false" then Bool(false)
        else if expr == "null" then Null
        else if expr == "undefined" then Undefined
        else if IsNumber(expr) then js.number(expr)
        else if IsQuoted(expr) then Str(expr[1..|expr| - 1])
        else PathValue(js, vals, expr)
  }

  /** What a path names: its head looked up in `vals`, then one access after another. */
  function PathValue(js: Js, vals: Value, expr: string): Value
    decreases |expr|, 2, 0
  {
    var head := IdentLen(expr, 0);
    if head == 0 then Undefined
    else Follow(js, vals, Prop(js, vals, Str(expr[..head])), expr, head)
  }

  /** A place in a path and the value reached there. */
  datatype Walk = Walk(cur: Value, i: nat)

  /** The one access written at index `i`, applied to `cur`; `None` when what stands there is none. */
  function Access(js: Js, vals: Value, cur: Value, expr: string, i: nat): (r: Option<Walk>)
    requires i < |expr|
    ensures r.Some? ==> i < r.value.i <= |expr|
    decreases |expr|, 0, 0
  {
    if expr[i] == '.' then
      var ident := IdentLen(expr, i + 1);
      var n := if ident > 0 then ident else DigitsLen(expr, i + 1);
      if n == 0 then None else Some(Walk(Prop(js, cur, Str(expr[i + 1..i + 1 + n])), i + 1 + n))
    else if expr[i] == '[' then
      match ClosingBracket(expr, i + 1, 1)
      case None => None
      case Some(j) => Some(Walk(Prop(js, cur, Resolve(js, vals, expr[i + 1..j])), j + 1))
    else None
  }

  /** The accesses written from index `i` on, applied to `cur`. */
  function Follow(js: Js, vals: Value, cur: Value, expr: string, i: nat): Value
    requires i <= |expr|
    decreases |expr|, 1, |expr| - i
  {
    if i == |expr| then cur
    else
      match Access(js, vals, cur, expr, i)
      case None => Undefined
      case Some(next) => Follow(js, vals, next.cur, expr, next.i)
  }

  /** `resolvePath`, the walk over a path with one cursor and one current value. */
  method ResolvePath(js: Js, vals: Value, expr: string) returns (r: Value)
    ensures r == PathValue(js, vals, expr)
  {
    var head := IdentLen(expr, 0);
    if head == 0 {
      return Undefined;
    }
    var cur := Prop(js, vals, Str(expr[..head]));
    var i: nat := head;
    ghost var named := PathValue(js, vals, expr);
    while i < |expr|
      invariant i <= |expr| && Follow(js, vals, cur, expr, i) == named
    {
      var next := TakeAccess(js, vals, cur, expr, i);
      if next.None? {
        return Undefined;
      }
      cur, i := next.value.cur, next.value.i;
    }
    return cur;
  }

  /** One turn of that walk. */
  method TakeAccess(js: Js, vals: Value, cur: Value, expr: string, i: nat) returns (r: Option<Walk>)
    requires i < |expr|
    ensures r == Access(js, vals, cur, expr, i)
  {
    if expr[i] == '.' {
      var m := IdentLen(expr, i + 1);
      if m == 0 {
        m := DigitsLen(expr, i + 1);
      }
      if m == 0 {
        return None;
      }
      return Some(Walk(Prop(js, cur, Str(expr[i + 1..i + 1 + m])), i + 1 + m));
    }
    if expr[i] == '[' {
      var close := FindClosingBracket(expr, i + 1);
      if close.None? {
        return None;
      }
      var key := Resolve(js, vals, expr[i + 1..close.value]);
      return Some(Walk(Prop(js, cur, key), close.value + 1));
    }
    return None;
  }

  /** The scan for the bracket that closes the one in front of `from`. */
  method FindClosingBracket(expr: string, from: nat) returns (r: Option<nat>)
    ensures r == ClosingBracket(expr, from, 1)
  {
    var depth: nat := 1;
    var j: nat := from;
    while j < |expr|
      invariant depth > 0 && ClosingBracket(expr, from, 1) == ClosingBracket(expr, j, depth)
    {
      if expr[j] == '[' {
        depth := depth + 1;
      } else if expr[j] == ']' {
        depth := depth - 1;
        if depth == 0 {
          return Some(j);
        }
      }
      j := j + 1;
    }
    return None;
  }
}
