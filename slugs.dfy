/**
 * The canonicalisation of layout names (`to_slug` in layout/schemata/__init__.py,
 * also used for a farm's slug in farms/models.py): lowercase the string, then slugify it.
 *
 * `slugify` comes from a foreign library. It is modelled as one plausible slugify on
 * ASCII text: letters are lowercased, every run of characters other than `a`-`z` and
 * `0`-`9` becomes a single hyphen, and hyphens are stripped from both ends. What the
 * rest of the model relies on is only that its output is slug-shaped, that it leaves a
 * slug unchanged, and that it ignores letter case.
 */
module Slugs {

  predicate IsSlugChar(c: char) {
    'a' <= c <= 'z' || '0' <= c <= '9'
  }

  /** Python's `str.lower` on one ASCII character. */
  function LowerChar(c: char): char {
    if 'A' <= c <= 'Z' then (c as int + 32) as char else c
  }

  /**
   * `str.lower`, on ASCII letters only: no upper-case ASCII letter is left, each one
   * becomes its lower-case letter, and every other character is kept in place.
   */
  function Lower(s: string): (r: string)
    ensures |r| == |s|
    ensures forall i :: 0 <= i < |r| ==> !('A' <= r[i] <= 'Z')
    ensures forall i :: 0 <= i < |s| && !('A' <= s[i] <= 'Z') ==> r[i] == s[i]
    ensures forall i :: 0 <= i < |s| && 'A' <= s[i] <= 'Z' ==> 'a' <= r[i] <= 'z' && r[i] as int - 'a' as int == s[i] as int - 'A' as int
  {
    seq(|s|, i requires 0 <= i < |s| => LowerChar(s[i]))
  }

  /**
   * Emits the slug of `s`, left to right. `started` says a word has been emitted
   * already; `pending` says a run of separators has been seen since the last word.
   */
  function Emit(s: string, started: bool, pending: bool): string
    decreases |s|
  {
    if s == [] then []
    else if IsSlugChar(s[0]) then
      (if started && pending then "-" + [s[0]] else [s[0]]) + Emit(s[1..], true, false)
    else Emit(s[1..], started, true)
  }

  function Slugify(s: string): string {
    Emit(Lower(s), false, false)
  }

  /** `to_slug(string)`: `slugify(str(string).lower())`. */
  function ToSlug(s: string): (r: string)
    ensures |r| <= |s|
  {
    EmitLength(Lower(Lower(s)), false, false);
    Slugify(Lower(s))
  }

  /** The slug emitted is no longer than its input, plus the hyphen a pending separator owes. */
  lemma {:induction false} EmitLength(s: string, started: bool, pending: bool)
    ensures |Emit(s, started, pending)| <= |s| + (if started && pending then 1 else 0)
    decreases |s|
  {
    if s != [] {
      EmitLength(s[1..], IsSlugChar(s[0]) || started, !IsSlugChar(s[0]));
    }
  }

  /** A slug: words of `a`-`z`, `0`-`9` joined by single hyphens. */
  predicate IsSlug(s: string) {
    s == [] || (IsSlugChar(s[0]) && SlugTail(s[1..]))
  }

  /** What may follow a word character inside a slug. */
  predicate SlugTail(s: string)
    decreases |s|
  {
    || s == []
    || (IsSlugChar(s[0]) && SlugTail(s[1..]))
    || (|s| >= 2 && s[0] == '-' && IsSlugChar(s[1]) && SlugTail(s[2..]))
  }

  predicate InSlugAlphabet(s: string) {
    forall i :: 0 <= i < |s| ==> IsSlugChar(s[i]) || s[i] == '-'
  }

  lemma {:induction false} EmitShape(s: string, started: bool, pending: bool)
    ensures started ==> SlugTail(Emit(s, started, pending))
    ensures !started ==> IsSlug(Emit(s, started, pending))
    decreases |s|
  {
    if s != [] {
      if IsSlugChar(s[0]) {
        EmitShape(s[1..], true, false);
        var rest := Emit(s[1..], true, false);
        if started && pending {
          assert ("-" + [s[0]] + rest)[2..] == rest;
        } else {
          assert ([s[0]] + rest)[1..] == rest;
        }
      } else {
        EmitShape(s[1..], started, true);
      }
    }
  }

  /** Every slug is made of word characters and hyphens only. */
  lemma {:induction false} SlugTailAlphabet(s: string)
    requires SlugTail(s)
    ensures InSlugAlphabet(s)
    decreases |s|
  {
    if s != [] {
      if IsSlugChar(s[0]) && SlugTail(s[1..]) {
        SlugTailAlphabet(s[1..]);
      } else {
        SlugTailAlphabet(s[2..]);
      }
    }
  }

  lemma SlugAlphabet(s: string)
    requires IsSlug(s)
    ensures InSlugAlphabet(s)
  {
    if s != [] {
      SlugTailAlphabet(s[1..]);
    }
  }

  lemma LowerOfAlphabet(s: string)
    requires InSlugAlphabet(s)
    ensures Lower(s) == s
  {
  }

  /** Re-emitting the tail of a slug after a word character reproduces it. */
  lemma {:induction false} EmitFixesTail(s: string)
    requires SlugTail(s)
    ensures Emit(s, true, false) == s
    decreases |s|
  {
    if s != [] {
      if IsSlugChar(s[0]) && SlugTail(s[1..]) {
        EmitFixesTail(s[1..]);
      } else {
        EmitFixesTail(s[2..]);
        assert s[1..][0] == s[1] && s[1..][1..] == s[2..];
        assert Emit(s, true, false) == Emit(s[1..], true, true);
        assert s == "-" + [s[1]] + s[2..];
      }
    }
  }

  /** slugify leaves a slug unchanged. */
  lemma SlugifyFixesSlug(s: string)
    requires IsSlug(s)
    ensures Slugify(s) == s && ToSlug(s) == s
  {
    SlugAlphabet(s);
    LowerOfAlphabet(s);
    if s != [] {
      EmitFixesTail(s[1..]);
      assert s == [s[0]] + s[1..];
    }
  }

  /** The result of `to_slug` is a slug. */
  lemma ToSlugIsSlug(s: string)
    ensures IsSlug(ToSlug(s))
  {
    EmitShape(Lower(Lower(s)), false, false);
  }

  /**
   * `to_slug` is idempotent: applying it to an already canonical name changes nothing,
   * so the second application performed when an `Entity` is built from validated
   * attributes is harmless.
   */
  lemma ToSlugIdempotent(s: string)
    ensures ToSlug(ToSlug(s)) == ToSlug(s)
  {
    ToSlugIsSlug(s);
    SlugifyFixesSlug(ToSlug(s));
  }

  lemma LowerIdempotent(s: string)
    ensures Lower(Lower(s)) == Lower(s)
  {
  }

  /** Names differing only in letter case canonicalise to the same key. */
  lemma ToSlugIgnoresCase(s: string)
    ensures ToSlug(Lower(s)) == ToSlug(s)
  {
    LowerIdempotent(s);
  }

  lemma AllWordCharsIsSlug(s: string)
    requires forall i :: 0 <= i < |s| ==> IsSlugChar(s[i])
    ensures IsSlug(s) && (s != [] ==> SlugTail(s[1..]))
  {
    AllWordCharsTail(s);
    if s != [] {
      AllWordCharsTail(s[1..]);
    }
  }

  lemma {:induction false} AllWordCharsTail(s: string)
    requires forall i :: 0 <= i < |s| ==> IsSlugChar(s[i])
    ensures SlugTail(s)
    decreases |s|
  {
    if s != [] {
      AllWordCharsTail(s[1..]);
    }
  }

  /** A word made only of lowercase letters and digits is its own slug. */
  lemma WordIsOwnSlug(s: string)
    requires forall i :: 0 <= i < |s| ==> IsSlugChar(s[i])
    ensures ToSlug(s) == s
  {
    AllWordCharsIsSlug(s);
    SlugifyFixesSlug(s);
  }

  /** The reserved names used by the layout schemata are their own slugs. */
  lemma TraySlug()
    ensures ToSlug("tray") == "tray"
  {
    WordIsOwnSlug("tray");
  }

  lemma EnclosureSlug()
    ensures ToSlug("enclosure") == "enclosure"
  {
    WordIsOwnSlug("enclosure");
  }

  /** `to_slug(None)`: `str(None)` is "None", whose slug is "none". */
  lemma NoneSlug()
    ensures ToSlug("None") == "none"
  {
    var l := Lower("None");
    assert l[0] == 'n' && l[1] == 'o' && l[2] == 'n' && l[3] == 'e';
    assert l == "none";
    WordIsOwnSlug("none");
  }
}
