/**
 The username normaliser of backend/server.py (`normalize_username`): it maps any raw
 identity string to a comparable key over `[a-z0-9]`, or to the empty string, which
 callers treat as "discard this record".

 The step-by-step pipeline `Normalize` follows the source line by line; `Canonical`
 is the one-pass reference ("lowercase, then keep only key characters") and
 `NormalizeIsCanonical` proves the two equal. Idempotence, the characterisation of
 the empty result and the spelling equivalence are proved through `Canonical`.
 */
module Normalizer {
  import opened Results
  import opened Seqs

  /** The characters Python's `str.isspace()` accepts; `str.strip()` and the regex class `\s` both use this set. */
  predicate IsSpace(c: char) {
    || ('\t' <= c <= '\r')
    || ('\U{1C}' <= c <= ' ')
    || c == '\U{85}' || c == '\U{A0}' || c == '\U{1680}'
    || ('\U{2000}' <= c <= '\U{200A}')
    || c == '\U{2028}' || c == '\U{2029}' || c == '\U{202F}' || c == '\U{205F}' || c == '\U{3000}'
  }

  /** The regex class `[\s\._\-]`: whitespace, dot, underscore and hyphen. */
  predicate IsSeparator(c: char) {
    IsSpace(c) || c == '.' || c == '_' || c == '-'
  }

  /** The characters a key may hold: the complement of the regex class `[^a-z0-9]`. */
  predicate IsKeyChar(c: char) {
    ('a' <= c <= 'z') || ('0' <= c <= '9')
  }

  predicate IsKey(s: string) {
    forall i :: 0 <= i < |s| ==> IsKeyChar(s[i])
  }

  /** A key that can be stored as a username: non-empty. */
  predicate IsUsername(s: string) {
    s != "" && IsKey(s)
  }

  predicate NotAt(c: char) {
    c != '@'
  }

  predicate NotSeparator(c: char) {
    !IsSeparator(c)
  }

  /** A character that `str.replace('@', '')` or the separator regex deletes outright. */
  predicate NotIgnorable(c: char) {
    c != '@' && !IsSeparator(c)
  }

  const DottedCapitalI: char := '\U{130}'
  const KelvinSign: char := '\U{212A}'

  /**
   Python's `str.lower()` on one character, as far as it can produce ASCII: the letters
   `A`-`Z`, the dotted capital I (which becomes `i` followed by a combining dot) and the
   Kelvin sign (which becomes `k`). Every other character maps to a non-ASCII character
   or to itself and is then removed by the final filter, so it is left unchanged here.
   */
  function LowerChar(c: char): (r: string)
    ensures 1 <= |r| <= 2
    ensures forall i :: 0 <= i < |r| ==> !('A' <= r[i] <= 'Z')
  {
    if 'A' <= c <= 'Z' then [(c as int + 32) as char]
    else if c == DottedCapitalI then ['i', '\U{307}']
    else if c == KelvinSign then ['k']
    else [c]
  }

  /** `str.lower()` on a whole string. */
  function Lower(s: string): (r: string)
    ensures |s| <= |r|
  {
    if s == [] then [] else LowerChar(s[0]) + Lower(s[1..])
  }

  /** Leading whitespace removed. */
  function StripLeft(s: string): (r: string)
    ensures |r| <= |s| && r == s[|s| - |r|..]
    ensures r != [] ==> !IsSpace(r[0])
    ensures forall i :: 0 <= i < |s| - |r| ==> IsSpace(s[i])
  {
    if s != [] && IsSpace(s[0]) then StripLeft(s[1..]) else s
  }

  /** Trailing whitespace removed. */
  function StripRight(s: string): (r: string)
    ensures r <= s
    ensures r != [] ==> !IsSpace(r[|r| - 1])
    ensures forall i :: |r| <= i < |s| ==> IsSpace(s[i])
  {
    if s != [] && IsSpace(s[|s| - 1]) then StripRight(s[..|s| - 1]) else s
  }

  /** `str.strip()`: leading and trailing whitespace removed. */
  function Strip(s: string): string {
    StripRight(StripLeft(s))
  }

  /**
   `normalize_username`, step by step: null or empty gives the empty key; otherwise strip,
   delete every `@`, lowercase, delete the separator runs, delete everything outside
   `[a-z0-9]`.
   */
  function Normalize(username: Option<string>): (key: string)
    ensures IsKey(key)
    ensures username.None? ==> key == ""
    ensures username.Some? ==> |key| <= |username.value|
  {
    match username
    case None => ""
    case Some(raw) =>
      if raw == [] then ""
      else
        var stripped := Strip(raw);
        if stripped == [] then ""
        else
          var noAt := Filter(NotAt, stripped);
          var lowered := Lower(noAt);
          var compact := Filter(NotSeparator, lowered);
          NormalizeIsCanonical(raw);
          Filter(IsKeyChar, compact)
  }

  /** What one character contributes to the key: its lowercase form, restricted to `[a-z0-9]`. */
  function KeyPart(c: char): (r: string)
    ensures |r| <= 1
    ensures IsKey(r)
  {
    if 'A' <= c <= 'Z' then [(c as int + 32) as char]
    else if c == DottedCapitalI then ['i']
    else if c == KelvinSign then ['k']
    else if IsKeyChar(c) then [c]
    else []
  }

  /** The per-character contribution is the character's lowercase form restricted to key characters. */
  lemma KeyPartIsFilteredLower(c: char)
    ensures KeyPart(c) == Filter(IsKeyChar, LowerChar(c))
  {
    if c == DottedCapitalI {
      assert LowerChar(c) == ['i'] + ['\U{307}'];
      FilterAppend(IsKeyChar, ['i'], ['\U{307}']);
    }
  }

  /** The reference definition of the key: lowercase each character and keep only `[a-z0-9]`. */
  function Canonical(s: string): (key: string)
    ensures IsKey(key)
    ensures |key| <= |s|
  {
    if s == [] then [] else KeyPart(s[0]) + Canonical(s[1..])
  }

  /** The characters that survive normalisation: ASCII letters and digits, and the two non-ASCII capitals that lowercase to ASCII. */
  predicate Contributes(c: char) {
    ('a' <= c <= 'z') || ('A' <= c <= 'Z') || ('0' <= c <= '9') || c == DottedCapitalI || c == KelvinSign
  }

  /** A character contributes to the key exactly when it is one of the `Contributes` characters. */
  lemma KeyPartNonEmpty(c: char)
    ensures KeyPart(c) != [] <==> Contributes(c)
  {
  }

  lemma {:induction false} CanonicalAppend(a: string, b: string)
    ensures Canonical(a + b) == Canonical(a) + Canonical(b)
  {
    if a == [] {
      assert a + b == b;
    } else {
      assert (a + b)[1..] == a[1..] + b;
      CanonicalAppend(a[1..], b);
    }
  }

  /** The key is the lowercased string restricted to key characters. */
  lemma {:induction false} CanonicalIsFilteredLower(s: string)
    ensures Canonical(s) == Filter(IsKeyChar, Lower(s))
  {
    if s != [] {
      CanonicalIsFilteredLower(s[1..]);
      KeyPartIsFilteredLower(s[0]);
      FilterAppend(IsKeyChar, LowerChar(s[0]), Lower(s[1..]));
    }
  }

  /** Deleting characters that contribute nothing leaves the key unchanged. */
  lemma {:induction false} CanonicalIgnoresDropped(p: char -> bool, s: string)
    requires forall i :: 0 <= i < |s| && !p(s[i]) ==> KeyPart(s[i]) == []
    ensures Canonical(Filter(p, s)) == Canonical(s)
  {
    if s != [] {
      CanonicalIgnoresDropped(p, s[1..]);
      CanonicalAppend(Filter(p, [s[0]]), Filter(p, s[1..]));
    }
  }

  /** A string of whitespace has the empty key. */
  lemma {:induction false} CanonicalOfSpaces(s: string)
    requires forall i :: 0 <= i < |s| ==> IsSpace(s[i])
    ensures Canonical(s) == []
  {
    if s != [] {
      CanonicalOfSpaces(s[1..]);
    }
  }

  /** Whitespace contributes nothing to the key. */
  lemma KeyPartOfSpace(c: char)
    requires IsSpace(c)
    ensures KeyPart(c) == []
  {
  }

  lemma {:induction false} CanonicalStripLeft(s: string)
    ensures Canonical(StripLeft(s)) == Canonical(s)
  {
    if s != [] && IsSpace(s[0]) {
      CanonicalStripLeft(s[1..]);
      KeyPartOfSpace(s[0]);
      assert StripLeft(s) == StripLeft(s[1..]);
      assert Canonical(s) == KeyPart(s[0]) + Canonical(s[1..]);
    }
  }

  lemma {:induction false} CanonicalStripRight(s: string)
    ensures Canonical(StripRight(s)) == Canonical(s)
  {
    if s != [] && IsSpace(s[|s| - 1]) {
      var init := s[..|s| - 1];
      var last := s[|s| - 1];
      CanonicalStripRight(init);
      assert StripRight(s) == StripRight(init);
      assert s == init + [last];
      CanonicalAppend(init, [last]);
      KeyPartOfSpace(last);
      assert Canonical([last]) == KeyPart(last) + Canonical([]);
    }
  }

  /** Stripping whitespace does not change the key. */
  lemma CanonicalStrip(s: string)
    ensures Canonical(Strip(s)) == Canonical(s)
  {
    CanonicalStripLeft(s);
    CanonicalStripRight(StripLeft(s));
  }

  /** Deleting `@` signs does not change the key. */
  lemma CanonicalWithoutAt(t: string)
    ensures Canonical(Filter(NotAt, t)) == Canonical(t)
  {
    CanonicalIgnoresDropped(NotAt, t);
  }

  /** Deleting separators after lowercasing does not change which key characters remain. */
  lemma KeyCharsWithoutSeparators(lowered: string)
    ensures Filter(IsKeyChar, Filter(NotSeparator, lowered)) == Filter(IsKeyChar, lowered)
  {
    FilterNarrow(IsKeyChar, NotSeparator, lowered);
  }

  /** The steps after `str.strip()` compute the reference key. */
  lemma PipelineIsCanonical(t: string)
    ensures Filter(IsKeyChar, Filter(NotSeparator, Lower(Filter(NotAt, t)))) == Canonical(t)
  {
    var noAt := Filter(NotAt, t);
    CanonicalWithoutAt(t);
    CanonicalIsFilteredLower(noAt);
    KeyCharsWithoutSeparators(Lower(noAt));
  }

  /** The pipeline of `normalize_username` equals the one-pass reference definition. */
  lemma NormalizeIsCanonical(s: string)
    ensures s != [] && Strip(s) != [] ==>
      Filter(IsKeyChar, Filter(NotSeparator, Lower(Filter(NotAt, Strip(s))))) == Canonical(s)
    ensures s != [] && Strip(s) == [] ==> Canonical(s) == []
  {
    CanonicalStrip(s);
    PipelineIsCanonical(Strip(s));
  }

  /** The normaliser and the reference definition agree on every present input. */
  lemma NormalizeMatchesCanonical(s: string)
    ensures Normalize(Some(s)) == Canonical(s)
  {
    NormalizeIsCanonical(s);
  }

  /** A string that is already a key is its own key. */
  lemma {:induction false} CanonicalOfKey(k: string)
    requires IsKey(k)
    ensures Canonical(k) == k
  {
    if k != [] {
      CanonicalOfKey(k[1..]);
      assert KeyPart(k[0]) == [k[0]];
    }
  }

  /** Normalising twice is the same as normalising once. */
  lemma NormalizeIdempotent(username: Option<string>)
    ensures Normalize(Some(Normalize(username))) == Normalize(username)
  {
    var k := Normalize(username);
    NormalizeMatchesCanonical(k);
    CanonicalOfKey(k);
  }

  /** The key is empty exactly when no character of the input contributes; in particular for null, empty and whitespace-only input. */
  lemma {:induction false} CanonicalEmptyIff(s: string)
    ensures Canonical(s) == [] <==> forall i :: 0 <= i < |s| ==> !Contributes(s[i])
  {
    if s != [] {
      CanonicalEmptyIff(s[1..]);
      KeyPartNonEmpty(s[0]);
      assert forall i :: 1 <= i < |s| ==> s[i] == s[1..][i - 1];
    }
  }

  lemma NormalizeEmptyIff(username: Option<string>)
    ensures Normalize(username) == "" <==>
      username.None? || forall i :: 0 <= i < |username.value| ==> !Contributes(username.value[i])
  {
    if username.Some? {
      NormalizeMatchesCanonical(username.value);
      CanonicalEmptyIff(username.value);
    }
  }

  /** Null, empty and whitespace-only input all give the empty key. */
  lemma NormalizeBlank(s: string)
    requires forall i :: 0 <= i < |s| ==> IsSpace(s[i])
    ensures Normalize(None) == ""
    ensures Normalize(Some(s)) == ""
  {
    NormalizeMatchesCanonical(s);
    CanonicalOfSpaces(s);
  }

  /** What remains of a spelling once `@`, whitespace, `.`, `_`, `-` and case are disregarded. */
  function Skeleton(s: string): string {
    Lower(Filter(NotIgnorable, s))
  }

  /** The key depends only on the skeleton of the input. */
  lemma NormalizeViaSkeleton(s: string)
    ensures Normalize(Some(s)) == Filter(IsKeyChar, Skeleton(s))
  {
    NormalizeMatchesCanonical(s);
    CanonicalWithoutIgnorable(s);
    CanonicalIsFilteredLower(Filter(NotIgnorable, s));
  }

  /** Deleting `@` signs and separators does not change the key. */
  lemma CanonicalWithoutIgnorable(s: string)
    ensures Canonical(Filter(NotIgnorable, s)) == Canonical(s)
  {
    forall i | 0 <= i < |s| && !NotIgnorable(s[i])
      ensures KeyPart(s[i]) == []
    {
      assert !IsKeyChar(s[i]) && !Contributes(s[i]);
    }
    CanonicalIgnoresDropped(NotIgnorable, s);
  }

  /** Two spellings that differ only in `@` signs, case, whitespace, `.`, `_` or `-` get the same key. */
  lemma EquivalentSpellings(s: string, t: string)
    requires Skeleton(s) == Skeleton(t)
    ensures Normalize(Some(s)) == Normalize(Some(t))
  {
    NormalizeViaSkeleton(s);
    NormalizeViaSkeleton(t);
  }
}
