/** The renaming rule of the naming settings asset: a name override or a
    replace-all substitution, then a prefix and a postfix, all done through
    one `StringBuilder` shared by every call. A null string of the asset is
    modelled as the empty string, which is how the builder treats it. */
module Naming {

  /** `pattern` occurs in `s` at index `i`. */
  predicate OccursAt(s: string, pattern: string, i: int)
  {
    0 <= i && i + |pattern| <= |s| && s[i..i + |pattern|] == pattern
  }

  /** `pattern` occurs somewhere in `s`. */
  predicate Occurs(s: string, pattern: string)
  {
    exists i :: 0 <= i <= |s| && OccursAt(s, pattern, i)
  }

  /** `StringBuilder.Replace(pattern, replacement)`: every occurrence of
      `pattern`, found from left to right without overlap, is replaced. The
      code only calls it with a non-empty pattern. */
  function ReplaceAll(s: string, pattern: string, replacement: string): string
    requires |pattern| > 0
    decreases |s|
  {
    if |s| < |pattern| then s
    else if s[..|pattern|] == pattern then replacement + ReplaceAll(s[|pattern|..], pattern, replacement)
    else [s[0]] + ReplaceAll(s[1..], pattern, replacement)
  }

  /** A string in which the pattern does not occur is left as it is. */
  lemma {:induction false} AbsentPatternIsKept(s: string, pattern: string, replacement: string)
    requires |pattern| > 0
    requires !Occurs(s, pattern)
    ensures ReplaceAll(s, pattern, replacement) == s
    decreases |s|
  {
    if |s| >= |pattern| {
      assert !OccursAt(s, pattern, 0);
      assert s[..|pattern|] != pattern;
      forall i | OccursAt(s[1..], pattern, i)
        ensures false
      {
        assert s[1..][i..i + |pattern|] == s[i + 1..i + 1 + |pattern|];
        assert OccursAt(s, pattern, i + 1);
      }
      AbsentPatternIsKept(s[1..], pattern, replacement);
      assert [s[0]] + s[1..] == s;
    }
  }

  /** Replacing the pattern by itself changes nothing. */
  lemma {:induction false} SelfReplacementIsKept(s: string, pattern: string)
    requires |pattern| > 0
    ensures ReplaceAll(s, pattern, pattern) == s
    decreases |s|
  {
    if |s| >= |pattern| {
      if s[..|pattern|] == pattern {
        SelfReplacementIsKept(s[|pattern|..], pattern);
        assert s[..|pattern|] + s[|pattern|..] == s;
      } else {
        SelfReplacementIsKept(s[1..], pattern);
        assert [s[0]] + s[1..] == s;
      }
    }
  }

  /** A string that is the pattern alone becomes the replacement alone. */
  lemma PatternAloneIsReplaced(pattern: string, replacement: string)
    requires |pattern| > 0
    ensures ReplaceAll(pattern, pattern, replacement) == replacement
  {
    assert pattern[..|pattern|] == pattern;
    assert pattern[|pattern|..] == [];
    assert replacement + [] == replacement;
  }

  /** The shared `NAME_BUILDER`: its contents and the operations the
      renaming uses. */
  class NameBuilder {
    var contents: string

    constructor ()
      ensures contents == []
    {
      contents := [];
    }

    /** `Append(s)`. */
    method Append(s: string)
      modifies this
      ensures contents == old(contents) + s
    {
      contents := contents + s;
    }

    /** `Clear()`. */
    method Clear()
      modifies this
      ensures contents == []
    {
      contents := [];
    }

    /** `Replace(pattern, replacement)`. */
    method Replace(pattern: string, replacement: string)
      modifies this
      requires |pattern| > 0
      ensures contents == ReplaceAll(old(contents), pattern, replacement)
    {
      contents := ReplaceAll(contents, pattern, replacement);
    }

    /** `Insert(0, s)`. */
    method InsertAtStart(s: string)
      modifies this
      ensures contents == s + old(contents)
    {
      contents := s + contents;
    }
  }

  /** Anything with a `Name` the renaming can read and assign. */
  class Renamable {
    var name: string

    constructor (name: string)
      ensures this.name == name
    {
      this.name := name;
    }
  }

  /** The fields of the naming settings. */
  datatype NamingData = NamingData(
    prefix: string,
    postfix: string,
    nameOverride: string,
    substituteInput: string,
    substituteOutput: string)
  {
    /** The middle of the new name: the override if there is one, else the
        current text with the substitution applied if there is one, else the
        current text. */
    function Rewritten(current: string): string
    {
      if |nameOverride| > 0 then nameOverride
      else if |substituteInput| > 0 then ReplaceAll(current, substituteInput, substituteOutput)
      else current
    }

    /** The new name for the builder text `current`: the prefix and the
        postfix are added after the rewrite, so the substitution never
        touches them and they survive intact at both ends. */
    function NewName(current: string): (r: string)
      ensures |r| >= |prefix| + |postfix|
      ensures r[..|prefix|] == prefix
      ensures r[|r| - |postfix|..] == postfix
    {
      var middle := Rewritten(current);
      var r := prefix + middle + postfix;
      assert r[..|prefix|] == prefix;
      assert r[|r| - |postfix|..] == postfix;
      r
    }

    /** `ApplyToObject(renamable)`: the builder's leftover text followed by
        the old name is rewritten and framed by prefix and postfix into the
        new name, and the builder is left empty. When the builder comes in
        empty, as every call leaves it, the new name is that of the old name. */
    method ApplyToObject(builder: NameBuilder, renamable: Renamable)
      modifies builder, renamable
      ensures renamable.name == NewName(old(builder.contents) + old(renamable.name))
      ensures old(builder.contents) == [] ==> renamable.name == NewName(old(renamable.name))
      ensures builder.contents == []
    {
      builder.Append(renamable.name);
      if |nameOverride| > 0 {
        builder.Clear();
        builder.Append(nameOverride);
      } else if |substituteInput| > 0 {
        builder.Replace(substituteInput, substituteOutput);
      }
      builder.InsertAtStart(prefix);
      builder.Append(postfix);
      renamable.name := builder.contents;
      builder.Clear();
      assert [] + old(renamable.name) == old(renamable.name);
    }

    /** An override discards the old name: every name becomes the same one. */
    lemma OverrideDiscardsName(a: string, b: string)
      requires |nameOverride| > 0
      ensures NewName(a) == NewName(b) == prefix + nameOverride + postfix
    {
    }

    /** Without an override, the substitution applies to the name alone. */
    lemma SubstitutionTouchesOnlyTheName(current: string)
      requires |nameOverride| == 0 && |substituteInput| > 0
      ensures NewName(current) == prefix + ReplaceAll(current, substituteInput, substituteOutput) + postfix
    {
    }

    /** Without an override, a name that does not hold the substitution
        input is only framed by prefix and postfix. */
    lemma AbsentInputOnlyFrames(current: string)
      requires |nameOverride| == 0
      requires |substituteInput| > 0 ==> !Occurs(current, substituteInput)
      ensures NewName(current) == prefix + current + postfix
    {
      if |substituteInput| > 0 {
        AbsentPatternIsKept(current, substituteInput, substituteOutput);
      }
    }

    /** Substituting the input by itself leaves the name as it is. */
    lemma IdentitySubstitutionOnlyFrames(current: string)
      requires |nameOverride| == 0 && substituteInput == substituteOutput
      ensures NewName(current) == prefix + current + postfix
    {
      if |substituteInput| > 0 {
        SelfReplacementIsKept(current, substituteInput);
      }
    }

    /** With every field empty, the name is kept. */
    lemma AllEmptyKeepsName(current: string)
      requires prefix == postfix == nameOverride == substituteInput == []
      ensures NewName(current) == current
    {
      assert [] + current + [] == current;
    }
  }
}
