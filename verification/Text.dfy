/** Strings as the JavaScript library reads them: whitespace, searching, splitting and joining. */
module Text {

  datatype Option<+T> = None | Some(value: T)

  /** One character of the `\s` class, byte-order mark included. */
  predicate IsSpace(c: char) {
    var n := c as int;
    || 9 <= n <= 13
    || n in {0x20, 0xA0, 0x1680, 0x2028, 0x2029, 0x202F, 0x205F, 0x3000, 0xFEFF}
    || 0x2000 <= n <= 0x200A
  }

  /** `s.startsWith(pat, i)`. */
  predicate StartsAt(s: string, pat: string, i: nat) {
    i + |pat| <= |s| && s[i..i + |pat|] == pat
  }

  /** `s.indexOf(pat, from)`. */
  function IndexOf(s: string, pat: string, from: nat): (r: Option<nat>)
    ensures r.Some? ==> from <= r.value
    decreases |s| - from
  {
    if from + |pat| > |s| then None
    else if StartsAt(s, pat, from) then Some(from)
    else if from == |s| then None
    else IndexOf(s, pat, from + 1)
  }

  /** It is the first place at or after `from` where `pat` stands. */
  lemma {:induction false} IndexOfIsFirst(s: string, pat: string, from: nat)
    ensures var r := IndexOf(s, pat, from);
            && (r.Some? ==> StartsAt(s, pat, r.value) && forall j: nat :: from <= j < r.value ==> !StartsAt(s, pat, j))
            && (r.None? ==> forall j: nat :: from <= j ==> !StartsAt(s, pat, j))
    decreases |s| - from
  {
    if from + |pat| <= |s| && !StartsAt(s, pat, from) && from < |s| {
      IndexOfIsFirst(s, pat, from + 1);
    }
  }

  function TrimStart(s: string): (r: string)
    ensures |r| <= |s|
  {
    if s != "" && IsSpace(s[0]) then TrimStart(s[1..]) else s
  }

  function TrimEnd(s: string): (r: string)
    ensures |r| <= |s|
  {
    if s != "" && IsSpace(s[|s| - 1]) then TrimEnd(s[..|s| - 1]) else s
  }

  /** `s.trim()`. */
  function Trim(s: string): (r: string)
    ensures |r| <= |s|
  {
    TrimEnd(TrimStart(s))
  }

  predicate AllSpaces(s: string) {
    forall k :: 0 <= k < |s| ==> IsSpace(s[k])
  }

  /** Text that starts and ends with something to see is what trimming leaves of it. */
  lemma {:induction false} TrimPadded(before: string, s: string, after: string)
    requires AllSpaces(before) && AllSpaces(after)
    requires s != "" && !IsSpace(s[0]) && !IsSpace(s[|s| - 1])
    ensures Trim(before + s + after) == s
    decreases |before| + |after|
  {
    var t := before + s + after;
    if before != "" {
      assert t[1..] == before[1..] + s + after;
      TrimPadded(before[1..], s, after);
    } else if after != "" {
      var m := |after| - 1;
      assert TrimStart(t) == t && t[|t| - 1] == after[m];
      assert t[..|t| - 1] == before + s + after[..m];
      TrimPadded(before, s, after[..m]);
      assert TrimStart(t[..|t| - 1]) == t[..|t| - 1];
    } else {
      assert t == s;
    }
  }

  /** Trimming cuts spaces off both ends, and leaves none there. */
  lemma {:induction false} TrimCuts(s: string)
    ensures var t := Trim(s);
            && (AllSpaces(s) <==> t == "")
            && (t != "" ==> !IsSpace(t[0]) && !IsSpace(t[|t| - 1]))
            && exists k: nat :: k + |t| <= |s| && s[k..k + |t|] == t && AllSpaces(s[..k]) && AllSpaces(s[k + |t|..])
    decreases |s|
  {
    if AllSpaces(s) {
      TrimBlank(s);
      assert s[0..0] == "" && s[..0] == "" && s[0..] == s;
    } else {
      var i: nat, j: nat := 0, |s|;
      while IsSpace(s[i])
        invariant i < |s| && AllSpaces(s[..i])
        decreases |s| - i
      {
        assert s[..i + 1] == s[..i] + [s[i]];
        i := i + 1;
      }
      while IsSpace(s[j - 1])
        invariant i < j <= |s| && AllSpaces(s[j..])
        decreases j
      {
        assert s[j - 1..] == [s[j - 1]] + s[j..];
        j := j - 1;
      }
      var t := s[i..j];
      assert s == s[..i] + t + s[j..];
      TrimPadded(s[..i], t, s[j..]);
      assert s[i..i + |t|] == t && s[i + |t|..] == s[j..];
    }
  }

  lemma {:induction false} TrimBlank(s: string)
    requires AllSpaces(s)
    ensures TrimStart(s) == "" && Trim(s) == ""
  {
    if s != "" {
      TrimBlank(s[1..]);
    }
  }

  /** The characters of the `\s` class, one by one. */
  const SPACES :=
    "\t\n\U{B}\U{C}\r \U{A0}\U{1680}\U{2000}\U{2001}\U{2002}\U{2003}\U{2004}\U{2005}\U{2006}\U{2007}\U{2008}"
    + "\U{2009}\U{200A}\U{2028}\U{2029}\U{202F}\U{205F}\U{3000}\U{FEFF}"

  lemma SpacesAre(c: char)
    ensures IsSpace(c) <==> c in SPACES
  {
  }

  lemma StartsAtIs(s: string, pat: string, i: nat)
    ensures StartsAt(s, pat, i) <==> i + |pat| <= |s| && forall k :: 0 <= k < |pat| ==> s[i + k] == pat[k]
  {
    if i + |pat| <= |s| {
      var t := s[i..i + |pat|];
      assert forall k :: 0 <= k < |pat| ==> t[k] == s[i + k];
    }
  }

  // ----- Concatenation -----

  lemma Regroup(a: string, b: string, c: string)
    ensures (a + b) + c == a + (b + c)
  {
  }

  lemma FirstAndRest(s: string, rest: string)
    requires s != ""
    ensures s + rest == [s[0]] + (s[1..] + rest)
  {
  }

  // ----- Letters and digits -----

  const UPPER := "ABCDEFGHIJKLMNOPQRSTUVWXYZ"

  const LOWER := "abcdefghijklmnopqrstuvwxyz"

  const DIGITS := "0123456789"

  lemma LettersAt(k: nat)
    requires k < 26
    ensures UPPER[k] as int == 'A' as int + k && LOWER[k] as int == 'a' as int + k
  {
  }

  lemma LettersAre(c: char)
    ensures 'A' <= c <= 'Z' <==> c in UPPER
    ensures 'a' <= c <= 'z' <==> c in LOWER
  {
    if 'A' <= c <= 'Z' {
      LettersAt(c as int - 'A' as int);
    } else if c in UPPER {
      var k :| 0 <= k < |UPPER| && UPPER[k] == c;
      LettersAt(k);
    }
    if 'a' <= c <= 'z' {
      LettersAt(c as int - 'a' as int);
    } else if c in LOWER {
      var k :| 0 <= k < |LOWER| && LOWER[k] == c;
      LettersAt(k);
    }
  }

  // ----- `split`, `join` -----

  /** `s.split(sep)` for a one-character separator. */
  function Split(s: string, sep: char): (parts: seq<string>)
    ensures parts != []
  {
    if s == "" then [""]
    else
      var rest := Split(s[1..], sep);
      if s[0] == sep then [""] + rest else [[s[0]] + rest[0]] + rest[1..]
  }

  /** `parts.join(sep)`. */
  function Join(parts: seq<string>, sep: char): string {
    if parts == [] then "" else if |parts| == 1 then parts[0] else parts[0] + [sep] + Join(parts[1..], sep)
  }

  lemma {:induction false} JoinSplit(s: string, sep: char)
    ensures Join(Split(s, sep), sep) == s
    ensures forall p :: p in Split(s, sep) ==> sep !in p
  {
    if s != "" {
      JoinSplit(s[1..], sep);
      var rest := Split(s[1..], sep);
      if s[0] == sep {
        assert Split(s, sep)[1..] == rest;
      } else {
        assert Split(s, sep)[1..] == rest[1..];
        if |rest| > 1 {
          assert [s[0]] + rest[0] + [sep] + Join(rest[1..], sep) == [s[0]] + Join(rest, sep);
        }
      }
      assert s == [s[0]] + s[1..];
    }
  }
}
