/**
 Which stretches of a source a token stream need not account for
 (`firstUnaccountedOffset` of the Gate's lexer).
 */
module Coverage {
  import opened Text

  /** Past the newline that ends the line `from` is on, or `to` when no newline follows. */
  function LineEnd(s: string, from: nat, to: nat): nat {
    match IndexOf(s, "\n", from)
    case Some(eol) => eol + 1
    case None => to
  }

  /** Where the whitespace, shebang or comment that starts at `i` ends; `None` when none starts there. */
  function PieceEnd(s: string, i: nat, to: nat): (r: Option<nat>)
    requires i < to <= |s|
    ensures r.Some? ==> i < r.value
  {
    if IsSpace(s[i]) then Some(i + 1)
    else if i == 0 && StartsAt(s, "#!", 0) then Some(LineEnd(s, 2, to))
    else if StartsAt(s, "//", i) then Some(LineEnd(s, i + 2, to))
    else if StartsAt(s, "/*", i) then
      match IndexOf(s, "*/", i + 2)
      case None => None
      case Some(close) => Some(close + 2)
    else None
  }

  /** The first offset of `[from, to)` that no chain of pieces starting at `from` accounts for. */
  function Unaccounted(s: string, from: nat, to: nat): (r: Option<nat>)
    requires to <= |s|
    ensures r.Some? ==> from <= r.value < to
    decreases (to - from)
  {
    if from >= to then None
    else
      match PieceEnd(s, from, to)
      case None => Some(from)
      case Some(end) => Unaccounted(s, end, to)
  }

  /** `[from, to)` hides nothing: the pieces that start at `from` reach `to`. */
  predicate Accounted(s: string, from: nat, to: nat)
    requires to <= |s|
  {
    Unaccounted(s, from, to).None?
  }

  /** No piece starts at `i`, however far one looks. */
  predicate Rejected(s: string, i: nat) {
    i < |s| && Unaccounted(s, i, i + 1) == Some(i)
  }

  /** One turn of the program's loop: where the cursor goes from `i`, or `None` where it stays. */
  method TakePiece(s: string, i: nat, to: nat) returns (end: Option<nat>)
    requires i < to <= |s|
    ensures end == PieceEnd(s, i, to)
  {
    if IsSpace(s[i]) {
      return Some(i + 1);
    }
    if i == 0 && StartsAt(s, "#!", 0) {
      var eol := IndexOf(s, "\n", 2);
      return Some(if eol.None? then to else eol.value + 1);
    }
    if StartsAt(s, "//", i) {
      var eol := IndexOf(s, "\n", i + 2);
      return Some(if eol.None? then to else eol.value + 1);
    }
    if StartsAt(s, "/*", i) {
      var close := IndexOf(s, "*/", i + 2);
      if close.None? {
        return None;
      }
      return Some(close.value + 2);
    }
    return None;
  }

  /** The program's loop, which is the chain above walked with one cursor. */
  method FirstUnaccountedOffset(s: string, from: nat, to: nat) returns (r: Option<nat>)
    requires to <= |s|
    ensures r == Unaccounted(s, from, to)
  {
    var i := from;
    while i < to
      invariant Unaccounted(s, from, to) == Unaccounted(s, i, to)
      decreases (to - i)
    {
      var end := TakePiece(s, i, to);
      if end.None? {
        return Some(i);
      }
      i := end.value;
    }
    return None;
  }

  // ----- What is skipped, and how far -----

  /** Whitespace is skipped by one character. */
  lemma SpaceIsSkipped(s: string, i: nat, to: nat)
    requires i < to <= |s| && IsSpace(s[i])
    ensures Unaccounted(s, i, to) == Unaccounted(s, i + 1, to)
  {
  }

  /** The first newline at or after `from`. */
  ghost predicate FirstNewline(s: string, from: nat, e: Option<nat>) {
    match e
    case None => forall j :: from <= j < |s| ==> s[j] != '\n'
    case Some(k) => from <= k < |s| && s[k] == '\n' && forall j :: from <= j < k ==> s[j] != '\n'
  }

  /** The first delimiter that closes a block comment, at or after `from`. */
  ghost predicate FirstCloser(s: string, from: nat, e: Option<nat>) {
    match e
    case None => forall j :: from < j < |s| ==> !(s[j - 1] == '*' && s[j] == '/')
    case Some(k) =>
      && from <= k < |s| - 1 && s[k] == '*' && s[k + 1] == '/'
      && forall j :: from < j <= k ==> !(s[j - 1] == '*' && s[j] == '/')
  }

  lemma NewlineFound(s: string, from: nat, e: Option<nat>)
    requires FirstNewline(s, from, e)
    ensures IndexOf(s, "\n", from) == e
  {
    var r := IndexOf(s, "\n", from);
    IndexOfIsFirst(s, "\n", from);
    if r.Some? {
      StartsAtIs(s, "\n", r.value);
      assert s[r.value + 0] == '\n';
    }
    if e.Some? {
      assert s[e.value + 0] == '\n';
      StartsAtIs(s, "\n", e.value);
    }
  }

  lemma CloserFound(s: string, from: nat, e: Option<nat>)
    requires FirstCloser(s, from, e)
    ensures IndexOf(s, "*/", from) == e
  {
    var r := IndexOf(s, "*/", from);
    IndexOfIsFirst(s, "*/", from);
    if r.Some? {
      StartsAtIs(s, "*/", r.value);
      assert s[r.value + 1 - 1] == '*' && s[r.value + 1] == '/';
    }
    if e.Some? {
      StartsAtIs(s, "*/", e.value);
    }
  }

  lemma LinePiece(s: string, i: nat, to: nat, newline: Option<nat>)
    requires i + 1 < |s| && i < to <= |s|
    requires (s[i] == '/' && s[i + 1] == '/') || (s[i] == '#' && s[i + 1] == '!' && i == 0)
    requires FirstNewline(s, i + 2, newline)
    ensures PieceEnd(s, i, to) == Some(if newline.None? then to else newline.value + 1)
  {
    NewlineFound(s, i + 2, newline);
    StartsAtIs(s, "//", i);
    StartsAtIs(s, "#!", i);
  }

  lemma BlockPiece(s: string, i: nat, to: nat, closer: Option<nat>)
    requires i + 1 < |s| && i < to <= |s| && s[i] == '/' && s[i + 1] == '*'
    requires FirstCloser(s, i + 2, closer)
    ensures PieceEnd(s, i, to) == if closer.None? then None else Some(closer.value + 2)
  {
    CloserFound(s, i + 2, closer);
    StartsAtIs(s, "//", i);
    StartsAtIs(s, "#!", i);
    StartsAtIs(s, "/*", i);
  }

  /** A line comment, or a shebang in front of everything, is skipped past the first newline or to the end. */
  lemma LineIsSkipped(s: string, i: nat, to: nat, newline: Option<nat>)
    requires i + 1 < |s| && i < to <= |s|
    requires (s[i] == '/' && s[i + 1] == '/') || (s[i] == '#' && s[i + 1] == '!' && i == 0)
    requires FirstNewline(s, i + 2, newline)
    ensures Unaccounted(s, i, to) == if newline.None? then None else Unaccounted(s, newline.value + 1, to)
  {
    LinePiece(s, i, to, newline);
  }

  /** A block comment is skipped past the first delimiter that closes it; unclosed, it is where the chain breaks. */
  lemma BlockIsSkipped(s: string, i: nat, to: nat, closer: Option<nat>)
    requires i + 1 < |s| && i < to <= |s| && s[i] == '/' && s[i + 1] == '*'
    requires FirstCloser(s, i + 2, closer)
    ensures Unaccounted(s, i, to) == if closer.None? then Some(i) else Unaccounted(s, closer.value + 2, to)
  {
    BlockPiece(s, i, to, closer);
  }

  // ----- What an accounted-for stretch means -----

  /** A comment or shebang that starts at `c` still covers offset `i`. */
  ghost predicate CommentCovers(s: string, c: nat, i: nat) {
    || ((StartsAt(s, "//", c) || (c == 0 && StartsAt(s, "#!", 0)))
        && forall j :: c + 2 <= j < i && j < |s| ==> s[j] != '\n')
    || (StartsAt(s, "/*", c)
        && exists close: nat :: c + 2 <= close && i < close + 2 && StartsAt(s, "*/", close)
             && forall j: nat :: c + 2 <= j < close ==> !StartsAt(s, "*/", j))
  }

  /** Offset `i` is text the runtime does not execute, seen from `from`. */
  ghost predicate Inert(s: string, from: nat, i: nat) {
    i < |s| && (IsSpace(s[i]) || exists c: nat :: from <= c <= i && CommentCovers(s, c, i))
  }

  /** Nothing that is skipped starts at `g`: no whitespace, shebang, line comment or closed block comment. */
  ghost predicate StartsNothing(s: string, g: nat) {
    && g < |s| && !IsSpace(s[g])
    && !(g == 0 && StartsAt(s, "#!", 0))
    && !StartsAt(s, "//", g)
    && (StartsAt(s, "/*", g) ==> forall j: nat :: g + 2 <= j ==> !StartsAt(s, "*/", j))
  }

  lemma PieceIsInert(s: string, i: nat, to: nat)
    requires i < to <= |s| && PieceEnd(s, i, to).Some?
    ensures forall k :: i <= k < to && k < PieceEnd(s, i, to).value ==> Inert(s, i, k)
  {
    IndexOfIsFirst(s, "\n", i + 2);
    IndexOfIsFirst(s, "*/", i + 2);
    forall k | i <= k < to && k < PieceEnd(s, i, to).value
      ensures Inert(s, i, k)
    {
      if IsSpace(s[i]) {
        assert k == i;
      } else {
        forall j | i + 2 <= j < k && (StartsAt(s, "//", i) || (i == 0 && StartsAt(s, "#!", 0)))
          ensures s[j] != '\n'
        {
          assert !StartsAt(s, "\n", j);
          assert s[j..j + 1] == [s[j]];
        }
        assert CommentCovers(s, i, k);
      }
    }
  }

  /** The offset named is rejected whatever follows, everything before it is accounted for. */
  lemma {:induction false} UnaccountedIsFirst(s: string, from: nat, to: nat)
    requires to <= |s| && Unaccounted(s, from, to).Some?
    ensures var g := Unaccounted(s, from, to).value;
            && StartsNothing(s, g) && Rejected(s, g)
            && Accounted(s, from, g) && Unaccounted(s, from, g + 1) == Some(g)
    decreases (to - from)
  {
    if PieceEnd(s, from, to).None? {
      IndexOfIsFirst(s, "*/", from + 2);
    } else {
      var end := PieceEnd(s, from, to).value;
      UnaccountedIsFirst(s, end, to);
      var g := Unaccounted(s, end, to).value;
      assert PieceEnd(s, from, g) == PieceEnd(s, from, g + 1) == Some(end);
    }
  }

  /** A stretch that is accounted for is inert to its last character. */
  lemma {:induction false} AccountedIsInert(s: string, from: nat, to: nat, i: nat)
    requires from <= i < to <= |s| && Accounted(s, from, to)
    ensures Inert(s, from, i)
    decreases (to - from)
  {
    var end := PieceEnd(s, from, to).value;
    PieceIsInert(s, from, to);
    if end <= i {
      AccountedIsInert(s, end, to, i);
    }
  }

  /** Accounting for a stretch accounts for each of its prefixes. */
  lemma {:induction false} AccountedPrefix(s: string, from: nat, mid: nat, to: nat)
    requires mid <= to <= |s| && Accounted(s, from, to)
    ensures Accounted(s, from, mid)
    decreases (to - from)
  {
    if from < mid {
      var end := PieceEnd(s, from, to).value;
      AccountedPrefix(s, end, mid, to);
    }
  }

  /** An offset at which nothing starts is the answer for every stretch that starts there. */
  lemma RejectedAtOnce(s: string, g: nat, to: nat)
    requires Rejected(s, g) && g < to <= |s|
    ensures Unaccounted(s, g, to) == Some(g)
  {
    assert PieceEnd(s, g, g + 1).None?;
  }

  /** No comment-shaped text runs across offset `b`. */
  ghost predicate NothingCrosses(s: string, b: nat)
    requires b <= |s|
  {
    forall c :: 0 <= c < b ==> PieceEnd(s, c, |s|).None? || PieceEnd(s, c, |s|).value <= b
  }

  /** When nothing crosses `b`, looking from before `b` or from `b` gives the same answer past it. */
  lemma {:induction false} AccountingRestarts(s: string, from: nat, b: nat, to: nat)
    requires from <= b <= to <= |s| && NothingCrosses(s, b) && Accounted(s, from, b)
    ensures Unaccounted(s, from, to) == Unaccounted(s, b, to)
    decreases b - from
  {
    if from < b {
      assert PieceEnd(s, from, b).Some?;
      if b < |s| {
        AccountingRestarts(s, PieceEnd(s, from, |s|).value, b, to);
      }
    }
  }
}
