/** The slug generator of `src/infra/utils/gerador-slug.ts`: a name is
    trimmed, stripped of every character that is neither a word character
    nor whitespace, each run of whitespace becomes one hyphen, and the result
    is lower-cased. Also the random disambiguation token. */
module Slugs {

  import opened Seqs

  /** JavaScript whitespace, as matched by `\s` and removed by `trim()`:
      the WhiteSpace and LineTerminator code points of ECMAScript. */
  predicate IsSpace(c: char) {
    var n := c as int;
    || 0x09 <= n <= 0x0D
    || n == 0x20 || n == 0xA0 || n == 0x1680
    || 0x2000 <= n <= 0x200A
    || n == 0x2028 || n == 0x2029 || n == 0x202F || n == 0x205F
    || n == 0x3000 || n == 0xFEFF
  }

  /** The same code points listed one by one. */
  const Whitespace: set<char> := {
    '\U{0009}', '\U{000A}', '\U{000B}', '\U{000C}', '\U{000D}', '\U{0020}', '\U{00A0}', '\U{1680}',
    '\U{2000}', '\U{2001}', '\U{2002}', '\U{2003}', '\U{2004}', '\U{2005}', '\U{2006}', '\U{2007}',
    '\U{2008}', '\U{2009}', '\U{200A}', '\U{2028}', '\U{2029}', '\U{202F}', '\U{205F}', '\U{3000}',
    '\U{FEFF}'
  }

  /** `IsSpace` holds for exactly the 25 listed code points. */
  lemma SpaceIsWhitespace(c: char)
    ensures IsSpace(c) <==> c in Whitespace
  {
  }

  /** `\w` of a regular expression without the `u` flag: ASCII letters,
      digits and the underscore (the `i` flag does not widen it). */
  predicate IsWordChar(c: char) {
    'a' <= c <= 'z' || 'A' <= c <= 'Z' || '0' <= c <= '9' || c == '_'
  }

  predicate IsUpper(c: char) {
    'A' <= c <= 'Z'
  }

  /** The characters the second step keeps: those `[^\w\s]` does not match. */
  predicate IsKept(c: char) {
    IsWordChar(c) || IsSpace(c)
  }

  /** The alphabet of generated slugs. */
  predicate IsSlugChar(c: char) {
    'a' <= c <= 'z' || '0' <= c <= '9' || c == '_' || c == '-'
  }

  predicate AllSpace(s: string) {
    forall i :: 0 <= i < |s| ==> IsSpace(s[i])
  }

  /** The number of whitespace characters `s` starts with. */
  function LeadingSpace(s: string): (n: nat)
    ensures n <= |s|
    ensures forall i :: 0 <= i < n ==> IsSpace(s[i])
    ensures n < |s| ==> !IsSpace(s[n])
  {
    if s != [] && IsSpace(s[0]) then 1 + LeadingSpace(s[1..]) else 0
  }

  /** The length of `s` without its trailing whitespace. */
  function TrailingSpaceStart(s: string): (n: nat)
    ensures n <= |s|
    ensures forall i :: n <= i < |s| ==> IsSpace(s[i])
    ensures 0 < n ==> !IsSpace(s[n - 1])
  {
    if s != [] && IsSpace(s[|s| - 1]) then TrailingSpaceStart(s[..|s| - 1]) else |s|
  }

  /** Drops leading whitespace. */
  function TrimStart(s: string): string {
    s[LeadingSpace(s)..]
  }

  /** Drops trailing whitespace. */
  function TrimEnd(s: string): string {
    s[..TrailingSpaceStart(s)]
  }

  /** `String.prototype.trim`. */
  function Trim(s: string): (r: string)
    ensures |r| <= |s|
    ensures r == [] || (!IsSpace(r[0]) && !IsSpace(r[|r| - 1]))
    ensures r == [] <==> AllSpace(s)
  {
    TrimEnd(TrimStart(s))
  }

  /** `replace(/[^\w\s]/gi, '')`. */
  function StripSpecial(s: string): (r: string)
    ensures |r| <= |s|
    ensures forall i :: 0 <= i < |r| ==> IsKept(r[i])
  {
    Filter(s, IsKept)
  }

  /** `replace(/\s+/g, '-')`: every maximal run of whitespace becomes one
      hyphen; every other character is copied. */
  function CollapseSpaces(s: string): (r: string)
    ensures |r| <= |s|
    ensures forall i :: 0 <= i < |r| ==> !IsSpace(r[i])
    decreases |s|
  {
    if s == [] then []
    else if IsSpace(s[0]) then
      "-" + CollapseSpaces(TrimStart(s[1..]))
    else
      [s[0]] + CollapseSpaces(s[1..])
  }

  function LowerChar(c: char): char {
    if IsUpper(c) then (c as int - 'A' as int + 'a' as int) as char else c
  }

  /** `toLowerCase` on the strings it meets here, which are ASCII by the time
      it runs: upper-case letters become lower-case, all else is kept. */
  function Lower(s: string): (r: string)
    ensures |r| == |s|
    ensures forall i :: 0 <= i < |s| ==> !IsUpper(r[i])
    ensures forall i :: 0 <= i < |s| && !IsUpper(s[i]) ==> r[i] == s[i]
    ensures forall i :: 0 <= i < |s| && IsUpper(s[i]) ==> r[i] as int == s[i] as int + 32
  {
    seq(|s|, i requires 0 <= i < |s| => LowerChar(s[i]))
  }

  /** `generateSlug`: total and deterministic; no step adds characters. */
  function GenerateSlug(name: string): (slug: string)
    ensures |slug| <= |name|
  {
    Lower(CollapseSpaces(StripSpecial(Trim(name))))
  }

  // ---------------------------------------------------------------------
  // Properties of generateSlug

  /** A slug holds only lower-case ASCII letters, digits, `_` and `-`: no
      whitespace and no upper-case letter. */
  lemma SlugAlphabet(name: string)
    ensures forall i :: 0 <= i < |GenerateSlug(name)| ==> IsSlugChar(GenerateSlug(name)[i])
  {
    var kept := StripSpecial(Trim(name));
    CollapseAlphabet(kept);
    LowerAlphabet(CollapseSpaces(kept));
  }

  lemma LowerAlphabet(s: string)
    requires forall i :: 0 <= i < |s| ==> IsWordChar(s[i]) || s[i] == '-'
    ensures forall i :: 0 <= i < |s| ==> IsSlugChar(Lower(s)[i])
  {
    forall i | 0 <= i < |s| ensures IsSlugChar(Lower(s)[i]) {
      assert Lower(s)[i] == LowerChar(s[i]);
    }
  }

  /** Collapsing whitespace in a string of word characters and whitespace
      leaves word characters and hyphens. */
  lemma {:induction false} CollapseAlphabet(s: string)
    requires forall i :: 0 <= i < |s| ==> IsKept(s[i])
    ensures forall i :: 0 <= i < |CollapseSpaces(s)| ==> IsWordChar(CollapseSpaces(s)[i]) || CollapseSpaces(s)[i] == '-'
    decreases |s|
  {
    if s != [] {
      if IsSpace(s[0]) {
        var rest := TrimStart(s[1..]);
        assert rest == s[|s| - |rest|..];
        assert forall i :: 0 <= i < |rest| ==> rest[i] == s[|s| - |rest| + i];
        CollapseAlphabet(rest);
        var r := CollapseSpaces(s);
        assert r == "-" + CollapseSpaces(rest);
        assert forall i :: 1 <= i < |r| ==> r[i] == CollapseSpaces(rest)[i - 1];
      } else {
        CollapseAlphabet(s[1..]);
        var r := CollapseSpaces(s);
        assert r == [s[0]] + CollapseSpaces(s[1..]);
        assert forall i :: 1 <= i < |r| ==> r[i] == CollapseSpaces(s[1..])[i - 1];
      }
    }
  }

  predicate HasHyphen(s: string) {
    exists i :: 0 <= i < |s| && s[i] == '-'
  }

  predicate HasDoubleHyphen(s: string) {
    exists i :: 0 <= i < |s| - 1 && s[i] == '-' && s[i + 1] == '-'
  }

  /** Collapsing a hyphen-free string never yields two adjacent hyphens. */
  lemma {:induction false} CollapseNoDoubleHyphen(s: string)
    requires !HasHyphen(s)
    ensures !HasDoubleHyphen(CollapseSpaces(s))
    decreases |s|
  {
    if s != [] {
      var r := CollapseSpaces(s);
      if IsSpace(s[0]) {
        var rest := TrimStart(s[1..]);
        assert rest == s[|s| - |rest|..];
        assert !HasHyphen(rest) by {
          forall i | 0 <= i < |rest| ensures rest[i] != '-' {
            assert rest[i] == s[|s| - |rest| + i];
          }
        }
        CollapseNoDoubleHyphen(rest);
        var t := CollapseSpaces(rest);
        assert r == "-" + t;
        assert rest != [] ==> t[0] == rest[0];
        forall i | 0 <= i < |r| - 1 ensures !(r[i] == '-' && r[i + 1] == '-') {
          if i > 0 {
            assert r[i] == t[i - 1] && r[i + 1] == t[i];
          }
        }
      } else {
        assert !HasHyphen(s[1..]) by {
          forall i | 0 <= i < |s| - 1 ensures s[1..][i] != '-' {
            assert s[1..][i] == s[i + 1];
          }
        }
        CollapseNoDoubleHyphen(s[1..]);
        var t := CollapseSpaces(s[1..]);
        assert r == [s[0]] + t;
        forall i | 0 <= i < |r| - 1 ensures !(r[i] == '-' && r[i + 1] == '-') {
          if i > 0 {
            assert r[i] == t[i - 1] && r[i + 1] == t[i];
          }
        }
      }
    }
  }

  /** Every hyphen of a slug stands for one whitespace run, and hyphens of the
      name are deleted, so a slug never holds `--`. */
  lemma SlugNoDoubleHyphen(name: string)
    ensures !HasDoubleHyphen(GenerateSlug(name))
  {
    var kept := StripSpecial(Trim(name));
    assert !HasHyphen(kept) by {
      forall i | 0 <= i < |kept| ensures kept[i] != '-' {
        assert IsKept(kept[i]);
      }
    }
    CollapseNoDoubleHyphen(kept);
    var c := CollapseSpaces(kept);
    var slug := Lower(c);
    assert slug == GenerateSlug(name);
    forall i | 0 <= i < |slug| ensures slug[i] == '-' <==> c[i] == '-' {
      assert slug[i] == LowerChar(c[i]);
    }
  }

  /** Removing the hyphens from a collapsed hyphen-free string gives back the
      non-whitespace characters of the original, in order: collapsing only
      replaces whitespace. */
  lemma {:induction false} CollapseKeepsNonSpace(s: string)
    requires !HasHyphen(s)
    ensures Filter(CollapseSpaces(s), IsNotHyphen) == Filter(s, IsNotSpace)
    decreases |s|
  {
    if s == [] {
    } else if IsSpace(s[0]) {
      var rest := TrimStart(s[1..]);
      SpaceRunDropped(s);
      CollapseKeepsNonSpace(rest);
      assert CollapseSpaces(s) == "-" + CollapseSpaces(rest);
      FilterAppend("-", CollapseSpaces(rest), IsNotHyphen);
    } else {
      assert !HasHyphen(s[1..]) by {
        forall i | 0 <= i < |s| - 1 ensures s[1..][i] != '-' {
          assert s[1..][i] == s[i + 1];
        }
      }
      CollapseKeepsNonSpace(s[1..]);
      assert CollapseSpaces(s) == [s[0]] + CollapseSpaces(s[1..]);
      assert s == [s[0]] + s[1..];
      FilterAppend([s[0]], CollapseSpaces(s[1..]), IsNotHyphen);
      FilterAppend([s[0]], s[1..], IsNotSpace);
    }
  }

  /** A leading whitespace run holds no non-whitespace character and no hyphen. */
  lemma SpaceRunDropped(s: string)
    requires s != [] && IsSpace(s[0]) && !HasHyphen(s)
    ensures Filter(s, IsNotSpace) == Filter(TrimStart(s[1..]), IsNotSpace)
    ensures !HasHyphen(TrimStart(s[1..]))
  {
    var rest := TrimStart(s);
    assert rest == TrimStart(s[1..]);
    assert s == s[..|s| - |rest|] + rest;
    FilterSkipsSpaces(s[..|s| - |rest|], rest);
    forall i | 0 <= i < |rest| ensures rest[i] != '-' {
      assert rest[i] == s[|s| - |rest| + i];
    }
  }

  lemma FilterSkipsSpaces(spaces: string, rest: string)
    requires AllSpace(spaces)
    ensures Filter(spaces + rest, IsNotSpace) == Filter(rest, IsNotSpace)
  {
    FilterAppend(spaces, rest, IsNotSpace);
    FilterNone(spaces, IsNotSpace);
  }

  predicate IsNotHyphen(c: char) { c != '-' }

  predicate IsNotSpace(c: char) { !IsSpace(c) }

  lemma {:induction false} FilterNone(s: string, p: char -> bool)
    requires forall i :: 0 <= i < |s| ==> !p(s[i])
    ensures Filter(s, p) == []
  {
    if s != [] {
      FilterNone(s[1..], p);
    }
  }

  /** Trimming is idempotent. */
  lemma TrimTrim(s: string)
    ensures Trim(Trim(s)) == Trim(s)
  {
    var t := Trim(s);
    if t != [] {
      assert LeadingSpace(t) == 0;
      assert TrimStart(t) == t;
      assert TrailingSpaceStart(t) == |t|;
      assert TrimEnd(t) == t;
    }
  }

  /** Trimming removes whitespace at the two ends only: the input is a
      whitespace prefix, the trimmed string and a whitespace suffix, so every
      interior character, whitespace included, is kept in place. */
  lemma TrimKeepsMiddle(s: string)
    ensures var a := LeadingSpace(s);
      a + |Trim(s)| <= |s| && s == s[..a] + Trim(s) + s[a + |Trim(s)|..]
      && AllSpace(s[..a]) && AllSpace(s[a + |Trim(s)|..])
  {
    var a := LeadingSpace(s);
    var rest := s[a..];
    var b := TrailingSpaceStart(rest);
    assert Trim(s) == rest[..b];
    assert s == s[..a] + rest[..b] + rest[b..];
    assert s[a + b..] == rest[b..];
  }

  /** Surrounding whitespace does not matter: the slug of the trimmed name is
      the slug of the name. */
  lemma SlugIgnoresSurroundingSpace(name: string)
    ensures GenerateSlug(Trim(name)) == GenerateSlug(name)
  {
    TrimTrim(name);
  }

  /** An empty or all-whitespace name yields the empty slug. */
  lemma SlugOfBlank(name: string)
    requires AllSpace(name)
    ensures GenerateSlug(name) == ""
  {
  }

  // ---------------------------------------------------------------------
  // A reference definition of the whitespace collapse: first every
  // whitespace character becomes `-`, then each run of hyphens is squeezed
  // to one.

  function SpacesToHyphens(s: string): (r: string)
    ensures |r| == |s|
    ensures forall i :: 0 <= i < |s| ==> r[i] == if IsSpace(s[i]) then '-' else s[i]
  {
    seq(|s|, i requires 0 <= i < |s| => if IsSpace(s[i]) then '-' else s[i])
  }

  /** Drops every `-` that directly follows a `-`. */
  function Squeeze(s: string): string {
    if |s| <= 1 then s
    else if s[0] == '-' && s[1] == '-' then Squeeze(s[1..])
    else [s[0]] + Squeeze(s[1..])
  }

  function Hyphens(k: nat): (r: string)
    ensures |r| == k && forall i :: 0 <= i < k ==> r[i] == '-'
  {
    seq(k, i => '-')
  }

  /** A run of hyphens in front of a string that does not start with one is
      squeezed to a single hyphen. */
  lemma {:induction false} SqueezeRun(k: nat, t: string)
    requires t == [] || t[0] != '-'
    ensures Squeeze(Hyphens(k + 1) + t) == "-" + Squeeze(t)
  {
    var s := Hyphens(k + 1) + t;
    if k == 0 {
      if t != [] {
        assert s[1..] == t;
      } else {
        assert s == "-";
      }
    } else {
      assert s[1..] == Hyphens(k) + t;
      SqueezeRun(k - 1, t);
    }
  }

  /** Mapping whitespace to hyphens splits at a whitespace run. */
  lemma SpacesToHyphensSplit(s: string, n: nat)
    requires n <= |s| && forall i :: 0 <= i < n ==> IsSpace(s[i])
    ensures SpacesToHyphens(s) == Hyphens(n) + SpacesToHyphens(s[n..])
  {
  }

  /** On a hyphen-free string, collapsing whitespace runs is the same as
      turning every whitespace character into `-` and squeezing hyphen runs:
      each maximal run becomes exactly one `-`. */
  lemma {:induction false} CollapseIsSqueeze(s: string)
    requires !HasHyphen(s)
    ensures CollapseSpaces(s) == Squeeze(SpacesToHyphens(s))
    decreases |s|
  {
    if s == [] {
    } else if IsSpace(s[0]) {
      var n := LeadingSpace(s[1..]);
      var rest := TrimStart(s[1..]);
      assert rest == s[n + 1..];
      assert !HasHyphen(rest) by {
        forall i | 0 <= i < |rest| ensures rest[i] != '-' {
          assert rest[i] == s[n + 1 + i];
        }
      }
      CollapseIsSqueeze(rest);
      SpacesToHyphensSplit(s, n + 1);
      var t := SpacesToHyphens(rest);
      assert t == [] || t[0] != '-' by {
        if t != [] { assert t[0] == rest[0] && rest[0] == s[n + 1]; }
      }
      SqueezeRun(n, t);
    } else {
      assert !HasHyphen(s[1..]) by {
        forall i | 0 <= i < |s| - 1 ensures s[1..][i] != '-' {
          assert s[1..][i] == s[i + 1];
        }
      }
      CollapseIsSqueeze(s[1..]);
      var h := SpacesToHyphens(s);
      assert h[0] == s[0] && s[0] != '-';
      assert h[1..] == SpacesToHyphens(s[1..]);
    }
  }

  /** The slug through the reference collapse: every whitespace run left
      after trimming and stripping becomes exactly one `-`. */
  lemma SlugBySqueeze(name: string)
    ensures GenerateSlug(name) == Lower(Squeeze(SpacesToHyphens(StripSpecial(Trim(name)))))
  {
    var kept := StripSpecial(Trim(name));
    assert !HasHyphen(kept) by {
      forall i | 0 <= i < |kept| ensures kept[i] != '-' {
        assert IsKept(kept[i]);
      }
    }
    CollapseIsSqueeze(kept);
  }

  lemma {:induction false} CollapseWithoutSpace(s: string)
    requires forall i :: 0 <= i < |s| ==> !IsSpace(s[i])
    ensures CollapseSpaces(s) == s
  {
    if s != [] {
      CollapseWithoutSpace(s[1..]);
    }
  }

  lemma WordCharNotSpace(c: char)
    requires IsWordChar(c) || c == '-'
    ensures !IsSpace(c)
  {}

  /** A name without whitespace is its own trimmed form. */
  lemma TrimSpaceless(s: string)
    requires forall i :: 0 <= i < |s| ==> !IsSpace(s[i])
    ensures Trim(s) == s
  {
    assert TrimStart(s) == s;
    assert TrimEnd(s) == s;
  }

  /** A name made only of word characters maps to its lower-case form. */
  lemma SlugOfWord(name: string)
    requires forall i :: 0 <= i < |name| ==> IsWordChar(name[i])
    ensures GenerateSlug(name) == Lower(name)
  {
    forall i | 0 <= i < |name| ensures !IsSpace(name[i]) && IsKept(name[i]) {
      WordCharNotSpace(name[i]);
    }
    TrimSpaceless(name);
    FilterAll(name, IsKept);
    assert StripSpecial(name) == name;
    CollapseWithoutSpace(name);
  }

  /** A name without whitespace yields a slug without hyphens. */
  lemma SlugOfSpaceless(name: string)
    requires forall i :: 0 <= i < |name| ==> !IsSpace(name[i])
    ensures !HasHyphen(GenerateSlug(name))
  {
    TrimSpaceless(name);
    var kept := StripSpecial(name);
    assert forall i :: 0 <= i < |name| ==> IsNotSpace(name[i]);
    FilterKeeps(name, IsKept, IsNotSpace);
    forall i | 0 <= i < |kept| ensures IsWordChar(kept[i]) && !IsSpace(kept[i]) {
      assert IsKept(kept[i]) && IsNotSpace(kept[i]);
    }
    CollapseWithoutSpace(kept);
    var slug := Lower(kept);
    assert slug == GenerateSlug(name);
    forall i | 0 <= i < |slug| ensures slug[i] != '-' {
      assert slug[i] == LowerChar(kept[i]);
    }
  }

  /** Re-applying the generator gives the same slug exactly when the slug has
      no hyphen: a hyphen of the slug is deleted the second time. */
  lemma SlugIdempotentIff(name: string)
    ensures GenerateSlug(GenerateSlug(name)) == GenerateSlug(name) <==> !HasHyphen(GenerateSlug(name))
  {
    var slug := GenerateSlug(name);
    SlugAlphabet(name);
    if HasHyphen(slug) {
      forall i | 0 <= i < |slug| ensures !IsSpace(slug[i]) {
        assert IsSlugChar(slug[i]);
      }
      SlugOfSpaceless(slug);
    } else {
      forall i | 0 <= i < |slug| ensures IsWordChar(slug[i]) && !IsUpper(slug[i]) {
        assert IsSlugChar(slug[i]) && slug[i] != '-';
      }
      SlugOfWord(slug);
      assert Lower(slug) == slug;
    }
  }

  // ---------------------------------------------------------------------
  // generateUniqueHash

  /** The `alphanumeric` character set of the random-string library: the ten
      digits, then `a` to `z`, then `A` to `Z`. */
  function AlphanumericAt(k: nat): (c: char)
    requires k < 62
    ensures IsAlphanumeric(c)
  {
    if k < 10 then ('0' as int + k) as char
    else if k < 36 then ('a' as int + k - 10) as char
    else ('A' as int + k - 36) as char
  }

  predicate IsAlphanumeric(c: char) {
    '0' <= c <= '9' || 'a' <= c <= 'z' || 'A' <= c <= 'Z'
  }

  /** What `generateUniqueHash` may return: five alphanumeric characters. */
  predicate IsToken(t: string) {
    |t| == 5 && forall i :: 0 <= i < |t| ==> IsAlphanumeric(t[i])
  }

  /** `generateUniqueHash`, given the five random draws the library makes,
      one per character. */
  function GenerateUniqueHash(draws: seq<nat>): (token: string)
    requires |draws| == 5
    ensures IsToken(token)
  {
    seq(5, i requires 0 <= i < 5 => AlphanumericAt(draws[i] % 62))
  }

  function AlphanumericIndex(c: char): (k: nat)
    requires IsAlphanumeric(c)
    ensures k < 62 && AlphanumericAt(k) == c
  {
    if '0' <= c <= '9' then c as int - '0' as int
    else if 'a' <= c <= 'z' then c as int - 'a' as int + 10
    else c as int - 'A' as int + 36
  }

  /** Every five-character alphanumeric string is a possible token, so
      `IsToken` is exactly the range of `GenerateUniqueHash`. */
  lemma EveryTokenReachable(t: string)
    requires IsToken(t)
    ensures GenerateUniqueHash(seq(5, i requires 0 <= i < 5 => AlphanumericIndex(t[i]))) == t
  {
  }
}
