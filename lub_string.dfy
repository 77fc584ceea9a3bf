/**
 * The string utilities of lub/string.h, on values: a C string is a `string`
 * (a sequence of characters without the terminating NUL), and a `char *`
 * that may be NULL is an `Option<string>`. Functions that replace
 * `*string_ptr` with a freshly allocated string return the new value.
 */
module LubString {
  import opened Wrappers

  // ---------------------------------------------------------------------
  // Character classes and case folding (the "C" locale)
  // ---------------------------------------------------------------------

  /** `isspace`: blank, tab, newline, vertical tab, form feed, carriage return. */
  predicate IsSpace(c: char) {
    c == ' ' || (9 <= c as int <= 13)
  }

  /** `tolower`: maps 'A'..'Z' to 'a'..'z' and leaves every other character alone. */
  function ToLower(c: char): (r: char)
    ensures 'A' <= c <= 'Z' ==> 'a' <= r <= 'z' && r as int - c as int == 32
    ensures !('A' <= c <= 'Z') ==> r == c
  {
    if 'A' <= c <= 'Z' then (c as int + 32) as char else c
  }

  /** The string with every character folded to lower case. */
  function Lower(s: string): (r: string)
    ensures |r| == |s|
    ensures forall i :: 0 <= i < |s| ==> r[i] == ToLower(s[i])
  {
    seq(|s|, i requires 0 <= i < |s| => ToLower(s[i]))
  }

  lemma LowerSlice(s: string, i: int, j: int)
    requires 0 <= i <= j <= |s|
    ensures Lower(s[i..j]) == Lower(s)[i..j]
  {
  }

  lemma LowerIdempotent(s: string)
    ensures Lower(Lower(s)) == Lower(s)
  {
  }

  // ---------------------------------------------------------------------
  // Lexicographic order (the order `strcmp` decides)
  // ---------------------------------------------------------------------

  /**
   * `a` sorts strictly before `b`: either `a` is a proper prefix of `b`, or
   * at the first position where they differ `a` has the smaller character.
   */
  ghost predicate LexLess(a: string, b: string) {
    (|a| < |b| && a == b[..|a|]) ||
    (exists k :: 0 <= k < |a| && k < |b| && a[..k] == b[..k] && a[k] < b[k])
  }

  /** LexLess of two non-empty strings, decided by their first characters. */
  lemma LexLessUnfold(a: string, b: string)
    requires |a| > 0 && |b| > 0
    ensures LexLess(a, b) <==> a[0] < b[0] || (a[0] == b[0] && LexLess(a[1..], b[1..]))
  {
    if LexLess(a, b) {
      LexLessHead(a, b);
    }
    if a[0] < b[0] || (a[0] == b[0] && LexLess(a[1..], b[1..])) {
      LexLessCons(a, b);
    }
  }

  lemma LexLessHead(a: string, b: string)
    requires |a| > 0 && |b| > 0 && LexLess(a, b)
    ensures a[0] < b[0] || (a[0] == b[0] && LexLess(a[1..], b[1..]))
  {
    if |a| < |b| && a == b[..|a|] {
      assert a[0] == b[0];
      assert a[1..] == b[1..][..|a[1..]|];
    } else {
      var k :| 0 <= k < |a| && k < |b| && a[..k] == b[..k] && a[k] < b[k];
      if k > 0 {
        assert a[0] == a[..k][0] == b[..k][0] == b[0];
        assert a[1..][..k-1] == a[1..k] == b[1..k] == b[1..][..k-1];
        assert a[1..][k-1] < b[1..][k-1];
      }
    }
  }

  lemma LexLessCons(a: string, b: string)
    requires |a| > 0 && |b| > 0
    requires a[0] < b[0] || (a[0] == b[0] && LexLess(a[1..], b[1..]))
    ensures LexLess(a, b)
  {
    if a[0] < b[0] {
      assert a[..0] == b[..0];
      assert 0 < |a| && 0 < |b| && a[..0] == b[..0] && a[0] < b[0];
    } else {
      var a', b' := a[1..], b[1..];
      if |a'| < |b'| && a' == b'[..|a'|] {
        assert a == [a[0]] + a' && b[..|a|] == [b[0]] + b'[..|a'|];
        assert |a| < |b| && a == b[..|a|];
      } else {
        var k :| 0 <= k < |a'| && k < |b'| && a'[..k] == b'[..k] && a'[k] < b'[k];
        assert a[..k+1] == [a[0]] + a'[..k] && b[..k+1] == [b[0]] + b'[..k];
        assert a[k+1] == a'[k] && b[k+1] == b'[k];
        assert k + 1 < |a| && k + 1 < |b| && a[..k+1] == b[..k+1] && a[k+1] < b[k+1];
      }
    }
  }

  lemma LexLessEmpty(a: string, b: string)
    requires |a| == 0 || |b| == 0
    ensures LexLess(a, b) <==> |a| == 0 && |b| > 0
  {
    if |a| == 0 && |b| > 0 {
      assert a == b[..0];
    }
  }

  /**
   * The same order decided one character at a time: `b` is not exhausted, and
   * either `a` is, or its first character is smaller, or the first characters
   * agree and the rests are in order.
   */
  predicate LexBefore(a: string, b: string) {
    |b| > 0 && (|a| == 0 || a[0] < b[0] || (a[0] == b[0] && LexBefore(a[1..], b[1..])))
  }

  /** The character-by-character order is the lexicographic order. */
  lemma {:induction false} LexBeforeIsLexLess(a: string, b: string)
    ensures LexBefore(a, b) <==> LexLess(a, b)
    decreases |a|
  {
    if |a| == 0 || |b| == 0 {
      LexLessEmpty(a, b);
    } else {
      LexLessUnfold(a, b);
      LexBeforeIsLexLess(a[1..], b[1..]);
    }
  }

  /** LexBefore is transitive. */
  lemma {:induction false} LexBeforeTrans(a: string, b: string, c: string)
    requires LexBefore(a, b) && LexBefore(b, c)
    ensures LexBefore(a, c)
    decreases |a|
  {
    if |a| > 0 && a[0] == b[0] == c[0] {
      LexBeforeTrans(a[1..], b[1..], c[1..]);
    }
  }

  /** LexBefore is irreflexive and asymmetric. */
  lemma {:induction false} LexBeforeAsymmetric(a: string, b: string)
    ensures !LexBefore(a, a)
    ensures LexBefore(a, b) ==> !LexBefore(b, a)
    decreases |a|
  {
    if |a| > 0 {
      LexBeforeAsymmetric(a[1..], a[1..]);
      if |b| > 0 {
        LexBeforeAsymmetric(a[1..], b[1..]);
      }
    }
  }

  // ---------------------------------------------------------------------
  // strcmp and lub_string_nocasecmp
  // ---------------------------------------------------------------------

  /**
   * The C library's `strcmp`: negative, zero or positive as `a` sorts before,
   * equal to or after `b`. Only the sign is part of the contract.
   */
  function StrCmp(a: string, b: string): (r: int)
    ensures r == 0 <==> a == b
    ensures r < 0 <==> LexLess(a, b)
    ensures r > 0 <==> LexLess(b, a)
  {
    if |a| == 0 || |b| == 0 then
      LexLessEmpty(a, b);
      LexLessEmpty(b, a);
      |a| - |b|
    else if a[0] != b[0] then
      LexLessUnfold(a, b);
      LexLessUnfold(b, a);
      a[0] as int - b[0] as int
    else
      LexLessUnfold(a, b);
      LexLessUnfold(b, a);
      assert a == [a[0]] + a[1..] && b == [b[0]] + b[1..];
      StrCmp(a[1..], b[1..])
  }

  /**
   * `a` sorts strictly before `b` once both are folded to lower case: the
   * order lub_string_nocasecmp decides, read off character by character.
   */
  predicate NoCaseLess(a: string, b: string) {
    |b| > 0 &&
    (|a| == 0 || ToLower(a[0]) < ToLower(b[0]) ||
     (ToLower(a[0]) == ToLower(b[0]) && NoCaseLess(a[1..], b[1..])))
  }

  /** NoCaseLess is the lexicographic order of the lower-cased strings. */
  lemma {:induction false} NoCaseLessIsLexBefore(a: string, b: string)
    ensures NoCaseLess(a, b) <==> LexBefore(Lower(a), Lower(b))
  {
    if |a| > 0 && |b| > 0 {
      assert Lower(a)[0] == ToLower(a[0]) && Lower(b)[0] == ToLower(b[0]);
      assert Lower(a)[1..] == Lower(a[1..]);
      assert Lower(b)[1..] == Lower(b[1..]);
      NoCaseLessIsLexBefore(a[1..], b[1..]);
    }
  }

  /**
   * lub_string_nocasecmp: compares `cs` and `ct` ignoring case, a character
   * at a time; negative, zero or positive as `cs` is less than, equal to or
   * greater than `ct`.
   */
  function NoCaseCmp(cs: string, ct: string): (r: int)
    ensures r == 0 <==> Lower(cs) == Lower(ct)
    ensures r < 0 <==> NoCaseLess(cs, ct)
    ensures r > 0 <==> NoCaseLess(ct, cs)
  {
    if |cs| == 0 || |ct| == 0 then
      |cs| - |ct|
    else if ToLower(cs[0]) != ToLower(ct[0]) then
      assert Lower(cs)[0] != Lower(ct)[0];
      ToLower(cs[0]) as int - ToLower(ct[0]) as int
    else
      assert Lower(cs) == [ToLower(cs[0])] + Lower(cs[1..]);
      assert Lower(ct) == [ToLower(ct[0])] + Lower(ct[1..]);
      NoCaseCmp(cs[1..], ct[1..])
  }

  /** Comparing ignoring case is `strcmp` of the two strings folded to lower case. */
  lemma NoCaseCmpIsStrCmpOfLower(cs: string, ct: string)
    ensures NoCaseCmp(cs, ct) < 0 <==> StrCmp(Lower(cs), Lower(ct)) < 0
    ensures NoCaseCmp(cs, ct) == 0 <==> StrCmp(Lower(cs), Lower(ct)) == 0
    ensures NoCaseCmp(cs, ct) > 0 <==> StrCmp(Lower(cs), Lower(ct)) > 0
  {
    NoCaseLessIsLexBefore(cs, ct);
    NoCaseLessIsLexBefore(ct, cs);
    LexBeforeIsLexLess(Lower(cs), Lower(ct));
    LexBeforeIsLexLess(Lower(ct), Lower(cs));
  }

  /** NoCaseCmp is antisymmetric: swapping the arguments flips the sign. */
  lemma NoCaseCmpAntisymmetric(a: string, b: string)
    ensures NoCaseCmp(a, b) < 0 <==> NoCaseCmp(b, a) > 0
    ensures NoCaseCmp(a, b) == 0 <==> NoCaseCmp(b, a) == 0
  {
  }

  /** The order NoCaseCmp decides is transitive. */
  lemma {:induction false} NoCaseLessTrans(a: string, b: string, c: string)
    requires NoCaseLess(a, b) && NoCaseLess(b, c)
    ensures NoCaseLess(a, c)
  {
    NoCaseLessIsLexBefore(a, b);
    NoCaseLessIsLexBefore(b, c);
    NoCaseLessIsLexBefore(a, c);
    LexBeforeTrans(Lower(a), Lower(b), Lower(c));
  }

  /** The order NoCaseCmp decides is irreflexive and asymmetric. */
  lemma {:induction false} NoCaseLessAsymmetric(a: string, b: string)
    ensures !NoCaseLess(a, a)
    ensures NoCaseLess(a, b) ==> !NoCaseLess(b, a)
    ensures Lower(a) == Lower(b) ==> !NoCaseLess(a, b)
  {
    NoCaseLessIsLexBefore(a, a);
    NoCaseLessIsLexBefore(a, b);
    NoCaseLessIsLexBefore(b, a);
    LexBeforeAsymmetric(Lower(a), Lower(b));
    LexBeforeAsymmetric(Lower(a), Lower(a));
  }

  // ---------------------------------------------------------------------
  // lub_string_nocasestr
  // ---------------------------------------------------------------------

  /** `ct` occurs in `cs` at offset `i`, ignoring case. */
  predicate OccursAt(cs: string, ct: string, i: nat) {
    i + |ct| <= |cs| && Lower(cs[i..i + |ct|]) == Lower(ct)
  }

  /**
   * lub_string_nocasestr: the offset in `cs` of the first case-insensitive
   * occurrence of `ct`, or None when there is none.
   */
  function NoCaseStr(cs: string, ct: string): (r: Option<nat>)
    ensures r.Some? ==> OccursAt(cs, ct, r.value) && forall j :: 0 <= j < r.value ==> !OccursAt(cs, ct, j)
    ensures r.None? ==> forall j :: 0 <= j <= |cs| ==> !OccursAt(cs, ct, j)
  {
    NoCaseStrFrom(cs, ct, 0)
  }

  function NoCaseStrFrom(cs: string, ct: string, i: nat): (r: Option<nat>)
    requires i <= |cs|
    ensures r.Some? ==> i <= r.value && OccursAt(cs, ct, r.value) && forall j :: i <= j < r.value ==> !OccursAt(cs, ct, j)
    ensures r.None? ==> forall j :: i <= j <= |cs| ==> !OccursAt(cs, ct, j)
    decreases |cs| - i
  {
    if OccursAt(cs, ct, i) then Some(i)
    else if i == |cs| then None
    else NoCaseStrFrom(cs, ct, i + 1)
  }

  /** `line` is a case-insensitive prefix of `name`. */
  predicate NoCasePrefix(line: string, name: string) {
    |line| <= |name| && Lower(name[..|line|]) == Lower(line)
  }

  /** The first occurrence is at the very start exactly when `ct` is a case-insensitive prefix. */
  lemma NoCaseStrAtStart(cs: string, ct: string)
    ensures NoCaseStr(cs, ct) == Some(0) <==> NoCasePrefix(ct, cs)
  {
    if NoCasePrefix(ct, cs) {
      assert OccursAt(cs, ct, 0);
    }
  }

  // ---------------------------------------------------------------------
  // Duplication and concatenation
  // ---------------------------------------------------------------------

  /** lub_string_dup: a new string with the same content (NULL stays NULL). */
  function Dup(s: Option<string>): (r: Option<string>)
    ensures r == s
  {
    match s
    case None => None
    case Some(text) => Some(text[..])
  }

  /**
   * lub_string_dupn: a new string holding the first `length` characters of
   * `s`, or all of `s` when it is shorter.
   */
  function DupN(s: string, length: nat): (r: string)
    ensures |r| == if length < |s| then length else |s|
    ensures r <= s
  {
    if length < |s| then s[..length] else s
  }

  /**
   * lub_string_cat: `*string_ptr` becomes the old string (NULL read as empty)
   * followed by `text`. `fits` says whether the allocator could supply the
   * longer string; when it could not, the string is left as it was.
   */
  function Cat(s: Option<string>, text: string, fits: bool): (r: Option<string>)
    ensures fits ==> r.Some? && r.value == s.GetOr("") + text
    ensures !fits ==> r == s
  {
    if fits then Some(s.GetOr("") + text) else s
  }

  /**
   * lub_string_catn: like Cat, but appends only the first `length`
   * characters of `text` (all of it when `length` exceeds its length).
   */
  function CatN(s: Option<string>, text: string, length: nat, fits: bool): (r: Option<string>)
    ensures fits ==> r.Some? && r.value == s.GetOr("") + DupN(text, length)
    ensures !fits ==> r == s
  {
    Cat(s, DupN(text, length), fits)
  }

  /** Appending the whole text with CatN is Cat. */
  lemma CatNWhole(s: Option<string>, text: string, length: nat, fits: bool)
    requires length >= |text|
    ensures CatN(s, text, length, fits) == Cat(s, text, fits)
  {
  }

  /** What Cat appends can be read back from the end of the result. */
  lemma CatSuffix(s: Option<string>, text: string)
    ensures var r := Cat(s, text, true).value;
      |r| == |s.GetOr("")| + |text| && r[|s.GetOr("")|..] == text && r[..|s.GetOr("")|] == s.GetOr("")
  {
  }

  // ---------------------------------------------------------------------
  // lub_string_suffix
  // ---------------------------------------------------------------------

  /**
   * lub_string_suffix: the last space-separated word of `s`, i.e. the part
   * after the last white-space character (all of `s` when it has none).
   */
  function Suffix(s: string): (r: string)
    ensures |r| <= |s| && r == s[|s| - |r|..]
    ensures forall i :: 0 <= i < |r| ==> !IsSpace(r[i])
    ensures |r| < |s| ==> IsSpace(s[|s| - |r| - 1])
  {
    if |s| == 0 || IsSpace(s[|s| - 1]) then ""
    else
      var r := Suffix(s[..|s| - 1]) + [s[|s| - 1]];
      assert s[..|s| - 1][|s| - |r|..] == s[|s| - |r|..|s| - 1];
      r
  }

  /** A string without white space is its own suffix. */
  lemma {:induction false} SuffixOfWord(s: string)
    requires forall i :: 0 <= i < |s| ==> !IsSpace(s[i])
    ensures Suffix(s) == s
  {
    if |s| > 0 {
      SuffixOfWord(s[..|s| - 1]);
    }
  }

  // ---------------------------------------------------------------------
  // Words (the view of a line that lub_argv gives)
  // ---------------------------------------------------------------------

  /** Words joined with single spaces: the text the argument buffer holds. */
  function Join(words: seq<string>): string
  {
    if |words| == 0 then ""
    else if |words| == 1 then words[0]
    else Join(words[..|words| - 1]) + " " + words[|words| - 1]
  }

  /** A single word joins to itself. */
  lemma JoinOne(words: seq<string>)
    requires 0 < |words|
    ensures Join(words[..1]) == words[0]
  {
  }

  /** Joining one more word appends a space and that word. */
  lemma JoinSnoc(words: seq<string>, i: nat)
    requires 0 < i < |words|
    ensures Join(words[..i + 1]) == Join(words[..i]) + " " + words[i]
  {
    assert words[..i + 1][..i] == words[..i];
  }

  /** The number of maximal runs of non-white-space characters in `s`. */
  function CountWords(s: string): nat
  {
    if |s| == 0 then 0
    else if IsSpace(s[|s| - 1]) then CountWords(s[..|s| - 1])
    else if |s| == 1 || IsSpace(s[|s| - 2]) then CountWords(s[..|s| - 1]) + 1
    else CountWords(s[..|s| - 1])
  }
}
