/** The attribute-name codec of the template runtime: `encodeCamelAttrs` and `kebabToCamel`. */
module AttrCodec {
  import opened Text

  predicate IsUpper(c: char) {
    'A' <= c <= 'Z'
  }

  predicate IsLower(c: char) {
    'a' <= c <= 'z'
  }

  function ToLower(c: char): (l: char)
    ensures IsUpper(c) ==> IsLower(l)
  {
    if IsUpper(c) then c - 'A' + 'a' else c
  }

  function ToUpper(c: char): char {
    if IsLower(c) then c - 'a' + 'A' else c
  }

  /** `name.replace(/[A-Z]/g, (c) => "-" + c.toLowerCase())` */
  function Encode(name: string): string {
    if name == "" then ""
    else (if IsUpper(name[0]) then ['-', ToLower(name[0])] else [name[0]]) + Encode(name[1..])
  }

  /** `kebabToCamel`: `s.replace(/-([a-z])/g, (_, c) => c.toUpperCase())` */
  function Decode(s: string): string {
    if s == "" then ""
    else if |s| >= 2 && s[0] == '-' && IsLower(s[1]) then [ToUpper(s[1])] + Decode(s[2..])
    else [s[0]] + Decode(s[1..])
  }

  /** How many dashes stand in front of a lower-case letter. */
  function DashedLetters(s: string): nat {
    if s == "" then 0
    else (if |s| >= 2 && s[0] == '-' && IsLower(s[1]) then 1 else 0) + DashedLetters(s[1..])
  }

  lemma DecodeDashed(c: char, rest: string)
    requires IsLower(c)
    ensures Decode(['-', c] + rest) == [ToUpper(c)] + Decode(rest)
  {
    assert (['-', c] + rest)[2..] == rest;
  }

  /** Each dashed letter a name already has costs one character; a name without any comes back whole. */
  lemma {:induction false} DecodeEncoded(name: string)
    ensures |Decode(Encode(name))| + DashedLetters(name) == |name|
    ensures DashedLetters(name) == 0 ==> Decode(Encode(name)) == name
    decreases |name|
  {
    if name != "" {
      var c, rest := name[0], name[1..];
      DecodeEncoded(rest);
      if IsUpper(c) {
        DecodeDashed(ToLower(c), Encode(rest));
        assert ToUpper(ToLower(c)) == c;
      } else if c == '-' && rest != "" && IsLower(rest[0]) {
        assert Encode(name) == ['-', rest[0]] + Encode(rest[1..]);
        DecodeDashed(rest[0], Encode(rest[1..]));
        DecodeEncoded(rest[1..]);
      } else {
        if rest != "" {
        }
      }
    }
  }

  /** Decoding undoes encoding exactly for the names in which no dash stands in front of a lower-case letter. */
  lemma {:induction false} RoundTripsIff(name: string)
    ensures Decode(Encode(name)) == name <==> DashedLetters(name) == 0
  {
    DecodeEncoded(name);
  }

  // ----- The names that are rewritten -----

  predicate IsAlnum(c: char) {
    IsUpper(c) || IsLower(c) || '0' <= c <= '9'
  }

  /** `[a-z]+[A-Z][A-Za-z0-9]*` */
  predicate IsCamelName(name: string) {
    && name != "" && IsLower(name[0])
    && (forall k :: 0 <= k < |name| ==> IsAlnum(name[k]))
    && exists m :: 0 < m < |name| && IsUpper(name[m]) && forall k :: 0 <= k < m ==> IsLower(name[k])
  }

  const CAMEL_ATTR := "sc-camel-"

  /** What `encodeCamelAttrs` writes for a name, and how `collectProps` reads an attribute's name. */
  function Write(name: string): string {
    CAMEL_ATTR + Encode(name)
  }

  function Read(attr: string): string {
    if |attr| >= |CAMEL_ATTR| && attr[..|CAMEL_ATTR|] == CAMEL_ATTR then Decode(attr[|CAMEL_ATTR|..]) else attr
  }

  /** The HTML parser's reading of an attribute name. */
  function Lowercased(s: string): string {
    if s == "" then "" else [ToLower(s[0])] + Lowercased(s[1..])
  }

  lemma {:induction false} AlnumHasNoDashes(name: string)
    requires forall k :: 0 <= k < |name| ==> IsAlnum(name[k])
    ensures DashedLetters(name) == 0
  {
    if name != "" {
      AlnumHasNoDashes(name[1..]);
    }
  }

  lemma {:induction false} EncodedIsLowercase(name: string)
    ensures Lowercased(Encode(name)) == Encode(name)
  {
    if name != "" {
      var c, rest := name[0], Encode(name[1..]);
      EncodedIsLowercase(name[1..]);
      if IsUpper(c) {
        assert (['-', ToLower(c)] + rest)[1..] == [ToLower(c)] + rest;
        assert ([ToLower(c)] + rest)[1..] == rest;
      } else {
        assert ([c] + rest)[1..] == rest;
      }
    }
  }

  lemma {:induction false} LowercasedConcat(a: string, b: string)
    ensures Lowercased(a + b) == Lowercased(a) + Lowercased(b)
  {
    if a == "" {
      assert a + b == b;
    } else {
      assert (a + b)[1..] == a[1..] + b;
      LowercasedConcat(a[1..], b);
    }
  }

  /** Every rewritten name survives the parser's lower-casing and is read back as it was written. */
  lemma CamelNamesSurviveParsing(name: string)
    requires IsCamelName(name)
    ensures Read(Lowercased(Write(name))) == name
  {
    AlnumHasNoDashes(name);
    RoundTripsIff(name);
    LowercasedConcat(CAMEL_ATTR, Encode(name));
    PrefixIsLowercase();
    EncodedIsLowercase(name);
    var attr := Write(name);
    assert attr[..|CAMEL_ATTR|] == CAMEL_ATTR && attr[|CAMEL_ATTR|..] == Encode(name);
  }

  lemma {:induction false} LowerStays(s: string)
    requires forall k :: 0 <= k < |s| ==> !IsUpper(s[k])
    ensures Lowercased(s) == s
  {
    if s != "" {
      LowerStays(s[1..]);
    }
  }

  lemma PrefixIsLowercase()
    ensures Lowercased(CAMEL_ATTR) == CAMEL_ATTR
  {
    LowerStays(CAMEL_ATTR);
  }

  /** No two rewritten names share an encoding. */
  lemma EncodingIsInjective(a: string, b: string)
    requires IsCamelName(a) && IsCamelName(b) && Encode(a) == Encode(b)
    ensures a == b
  {
    CamelNamesSurviveParsing(a);
    CamelNamesSurviveParsing(b);
  }

  // ----- The two readings, character by character -----

  /** Each capital and its small letter. */
  lemma LettersPair(k: nat)
    requires k < 26
    ensures IsUpper(UPPER[k]) && ToLower(UPPER[k]) == LOWER[k]
    ensures IsLower(LOWER[k]) && ToUpper(LOWER[k]) == UPPER[k]
  {
    LettersAt(k);
  }

  /** There are no others, and the letters and the ten digits are all that a rewritten name may hold. */
  lemma ClassesAre(c: char)
    ensures IsUpper(c) <==> c in UPPER
    ensures IsLower(c) <==> c in LOWER
    ensures IsAlnum(c) <==> c in UPPER || c in LOWER || c in DIGITS
  {
    LettersAre(c);
  }

  /** Encoding writes a dash and the small letter for each capital, and every other character as it is. */
  lemma EncodeReads(c: char, rest: string)
    ensures Encode("") == ""
    ensures Encode([c] + rest) == (if IsUpper(c) then ['-', ToLower(c)] else [c]) + Encode(rest)
  {
    assert ([c] + rest)[1..] == rest;
  }

  /** Decoding writes the capital for a dash and a small letter, and every other character as it is. */
  lemma DecodeReads(c: char, rest: string)
    ensures Decode("") == ""
    ensures IsLower(c) ==> Decode(['-', c] + rest) == [ToUpper(c)] + Decode(rest)
    ensures c != '-' || rest == "" || !IsLower(rest[0]) ==> Decode([c] + rest) == [c] + Decode(rest)
  {
    if IsLower(c) {
      DecodeDashed(c, rest);
    }
    assert ([c] + rest)[1..] == rest;
  }

  /** A name without the prefix is read as it stands; with it, its encoded part is decoded. */
  lemma ReadReads(attr: string, encoded: string)
    ensures !("sc-camel-" <= attr) ==> Read(attr) == attr
    ensures Read("sc-camel-" + encoded) == Decode(encoded)
  {
    var full := "sc-camel-" + encoded;
    assert full[..9] == "sc-camel-" && full[9..] == encoded;
  }

  /** The rewritten names are those of small letters, then a capital, then any letters and digits. */
  lemma CamelNamesAre(name: string)
    ensures IsCamelName(name) <==>
            exists m :: 0 < m < |name| && IsUpper(name[m]) && (forall k :: 0 <= k < m ==> IsLower(name[k]))
                        && forall k :: m < k < |name| ==> IsAlnum(name[k])
  {
    if m :| 0 < m < |name| && IsUpper(name[m]) && (forall k :: 0 <= k < m ==> IsLower(name[k]))
            && forall k :: m < k < |name| ==> IsAlnum(name[k]) {
      assert IsLower(name[0]) && forall k :: 0 <= k < |name| ==> IsAlnum(name[k]);
    }
  }
}
