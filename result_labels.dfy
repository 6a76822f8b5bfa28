/**
 * The label the results page shows for each raw result key
 * (app/results/page.tsx, the `formattedKey` chain inside `formatResult`):
 *   1. a space before every upper-case ASCII letter,
 *   2. a space before every "Dm" and every "Kg",
 *   3. split on spaces, upper-case the first character of every piece, join
 *      with spaces,
 *   4. trim.
 */
module ResultLabels {
  import opened JsText

  // ---------------------------------------------------------------------------
  // The four steps as the page writes them
  // ---------------------------------------------------------------------------

  /** Step 1, `replace(/([A-Z])/g, ' $1')`: afterwards every capital follows a space. */
  function SpaceBeforeCapitals(s: string): (r: string)
    ensures |s| <= |r| <= 2 * |s|
  {
    if s == [] then []
    else (if IsAsciiUpper(s[0]) then [' ', s[0]] else [s[0]]) + SpaceBeforeCapitals(s[1..])
  }

  /** True when s begins with one of the two unit prefixes step 2 looks for. */
  predicate StartsWithUnit(s: string)
  {
    |s| >= 2 && ((s[0] == 'D' && s[1] == 'm') || (s[0] == 'K' && s[1] == 'g'))
  }

  /**
   * Step 2, `replace(/(Dm|Kg)/g, ' $1')`: a left-to-right scan for
   * non-overlapping matches.
   */
  function SpaceBeforeUnits(s: string): (r: string)
    ensures |s| <= |r|
    decreases |s|
  {
    if s == [] then []
    else if StartsWithUnit(s) then [' '] + s[..2] + SpaceBeforeUnits(s[2..])
    else [s[0]] + SpaceBeforeUnits(s[1..])
  }

  /** `word.charAt(0).toUpperCase() + word.slice(1)`: at most the first character changes. */
  function CapitaliseWord(w: string): (r: string)
    ensures CaseVariant(r, w)
    ensures w != [] ==> !IsAsciiLower(r[0]) && r[1..] == w[1..]
  {
    if w == [] then [] else [ToUpper(w[0])] + w[1..]
  }

  /** Step 3's `map` over the pieces. */
  function CapitaliseWords(ws: seq<string>): (r: seq<string>)
    ensures |r| == |ws|
    ensures forall i :: 0 <= i < |ws| ==> r[i] == CapitaliseWord(ws[i])
  {
    if ws == [] then [] else [CapitaliseWord(ws[0])] + CapitaliseWords(ws[1..])
  }

  /** The label of a result key. */
  function FormatKey(key: string): (caption: string)
    ensures Trimmed(caption)
  {
    Trim(Join(CapitaliseWords(Split(SpaceBeforeUnits(SpaceBeforeCapitals(key)), ' ')), ' '))
  }

  // ---------------------------------------------------------------------------
  // A character-by-character description of the same transform
  // ---------------------------------------------------------------------------

  /** The spaces steps 1 and 2 together put in front of the first character of s. */
  function Lead(s: string): string
    requires s != []
  {
    if StartsWithUnit(s) then "  " else if IsAsciiUpper(s[0]) then " " else ""
  }

  /** Every character of s, each preceded by its Lead. */
  function Spaced(s: string): string
  {
    if s == [] then [] else Lead(s) + [s[0]] + Spaced(s[1..])
  }

  /** The part of Spaced(s) that comes from the first i characters of s. */
  function SpacedPrefix(s: string, i: nat): string
    requires i <= |s|
  {
    if i == 0 then [] else Lead(s) + [s[0]] + SpacedPrefix(s[1..], i - 1)
  }

  /**
   * Upper-cases the characters that open a space-separated word: the first
   * one when atWordStart holds, and every one that follows a space.
   */
  function CapitaliseFrom(s: string, atWordStart: bool): (r: string)
    ensures |r| == |s|
  {
    if s == [] then []
    else [if atWordStart then ToUpper(s[0]) else s[0]] + CapitaliseFrom(s[1..], s[0] == ' ')
  }

  /** Character i of CapitaliseFrom(s, atWordStart): upper-cased exactly when it opens a word. */
  lemma {:induction false} CapitaliseFromAt(s: string, atWordStart: bool, i: nat)
    requires i < |s|
    ensures CapitaliseFrom(s, atWordStart)[i] ==
      if (i == 0 && atWordStart) || (i > 0 && s[i - 1] == ' ') then ToUpper(s[i]) else s[i]
  {
    if i > 0 {
      CapitaliseFromAt(s[1..], s[0] == ' ', i - 1);
      assert s[1..][i - 1] == s[i];
      if i > 1 {
        assert s[1..][i - 2] == s[i - 1];
      }
    }
  }

  /** a differs from b at most by upper-casing some of b's characters. */
  predicate CaseVariant(a: string, b: string)
  {
    |a| == |b| && forall i :: 0 <= i < |a| ==> a[i] == b[i] || a[i] == ToUpper(b[i])
  }

  /** A string in which every upper-case letter has a space just before it. */
  predicate CapitalsAfterSpace(s: string)
  {
    forall i :: 0 <= i < |s| && IsAsciiUpper(s[i]) ==> 0 < i && s[i - 1] == ' '
  }

  /** A string whose only white-space character is the space. */
  predicate OnlySpaces(s: string)
  {
    forall i :: 0 <= i < |s| && IsWhitespace(s[i]) ==> s[i] == ' '
  }

  // ---------------------------------------------------------------------------
  // Steps 1 and 2 together insert exactly the Lead of each character
  // ---------------------------------------------------------------------------

  /** Step 1 deletes nothing and leaves every capital after a space. */
  lemma {:induction false} SpaceBeforeCapitalsKeepsText(s: string)
    ensures CapitalsAfterSpace(SpaceBeforeCapitals(s))
    ensures RemoveWhitespace(SpaceBeforeCapitals(s)) == RemoveWhitespace(s)
  {
    if s != [] {
      var head := if IsAsciiUpper(s[0]) then [' ', s[0]] else [s[0]];
      var rest := SpaceBeforeCapitals(s[1..]);
      SpaceBeforeCapitalsKeepsText(s[1..]);
      assert SpaceBeforeCapitals(s) == head + rest;
      RemoveWhitespaceAppend(head, rest);
      RemoveWhitespaceAppend([s[0]], s[1..]);
      assert [s[0]] + s[1..] == s;
      if IsAsciiUpper(s[0]) {
        assert head[1..] == [s[0]];
      }
      forall i | 0 <= i < |head + rest| && IsAsciiUpper((head + rest)[i])
        ensures 0 < i && (head + rest)[i - 1] == ' '
      {
        if i >= |head| {
          assert (head + rest)[i] == rest[i - |head|];
          if i > |head| {
            assert (head + rest)[i - 1] == rest[i - |head| - 1];
          }
        }
      }
    }
  }

  /** Step 2 deletes nothing: it only inserts spaces. */
  lemma {:induction false} SpaceBeforeUnitsKeepsText(s: string)
    ensures RemoveWhitespace(SpaceBeforeUnits(s)) == RemoveWhitespace(s)
    decreases |s|
  {
    if s != [] {
      if StartsWithUnit(s) {
        SpaceBeforeUnitsKeepsText(s[2..]);
        UnitStepKeepsText(s, SpaceBeforeUnits(s[2..]));
      } else {
        SpaceBeforeUnitsKeepsText(s[1..]);
        PlainStepKeepsText(s[0], s[1..], SpaceBeforeUnits(s[1..]));
        assert [s[0]] + s[1..] == s;
      }
    }
  }

  /** A space put before a unit prefix disappears with the white space. */
  lemma UnitStepKeepsText(s: string, rest: string)
    requires |s| >= 2
    requires RemoveWhitespace(rest) == RemoveWhitespace(s[2..])
    ensures RemoveWhitespace([' '] + s[..2] + rest) == RemoveWhitespace(s)
  {
    RemoveWhitespaceAppend([' '], s[..2] + rest);
    assert [' '] + s[..2] + rest == [' '] + (s[..2] + rest);
    RemoveWhitespaceAppend(s[..2], rest);
    RemoveWhitespaceAppend(s[..2], s[2..]);
    assert s[..2] + s[2..] == s;
  }

  /** A character copied before equal text keeps the text equal. */
  lemma PlainStepKeepsText(c: char, t: string, rest: string)
    requires RemoveWhitespace(rest) == RemoveWhitespace(t)
    ensures RemoveWhitespace([c] + rest) == RemoveWhitespace([c] + t)
  {
    RemoveWhitespaceAppend([c], rest);
    RemoveWhitespaceAppend([c], t);
  }

  lemma SpaceBeforeCapitalsHead(s: string)
    requires s != []
    ensures SpaceBeforeCapitals(s) != []
    ensures SpaceBeforeCapitals(s)[0] == if IsAsciiUpper(s[0]) then ' ' else s[0]
  {
  }

  lemma {:induction false} SpacedSteps(s: string)
    ensures SpaceBeforeUnits(SpaceBeforeCapitals(s)) == Spaced(s)
  {
    if s != [] {
      if !IsAsciiUpper(s[0]) {
        SpacedSteps(s[1..]);
        SpacedStepsPlain(s);
      } else if StartsWithUnit(s) {
        SpacedSteps(s[2..]);
        SpacedStepsUnit(s);
      } else {
        SpacedSteps(s[1..]);
        SpacedStepsCapital(s);
      }
    }
  }

  /** SpacedSteps for a first character that is not an upper-case letter. */
  lemma SpacedStepsPlain(s: string)
    requires s != [] && !IsAsciiUpper(s[0])
    requires SpaceBeforeUnits(SpaceBeforeCapitals(s[1..])) == Spaced(s[1..])
    ensures SpaceBeforeUnits(SpaceBeforeCapitals(s)) == Spaced(s)
  {
    var rest := SpaceBeforeCapitals(s[1..]);
    assert SpaceBeforeCapitals(s) == [s[0]] + rest;
    assert !StartsWithUnit([s[0]] + rest);
    assert ([s[0]] + rest)[1..] == rest;
  }

  /** SpacedSteps for a key that starts with a unit. */
  lemma SpacedStepsUnit(s: string)
    requires StartsWithUnit(s)
    requires SpaceBeforeUnits(SpaceBeforeCapitals(s[2..])) == Spaced(s[2..])
    ensures SpaceBeforeUnits(SpaceBeforeCapitals(s)) == Spaced(s)
  {
    var r := SpaceBeforeCapitals(s[2..]);
    var t := [s[0], s[1]] + r;
    CapitalsOfUnit(s);
    UnitsAfterSpace(t);
    UnitsOfUnit(t);
    assert t[0] == s[0] && t[1] == s[1] && t[2..] == r;
    SpacedOfUnit(s);
    TwoSpacesBefore(s[0], s[1], Spaced(s[2..]));
  }

  lemma TwoSpacesBefore(a: char, b: char, z: string)
    ensures [' '] + ([' '] + [a, b] + z) == "  " + [a] + ([b] + z)
  {
  }

  /** Step 1 on a key that starts with a unit. */
  lemma CapitalsOfUnit(s: string)
    requires StartsWithUnit(s)
    ensures SpaceBeforeCapitals(s) == [' '] + ([s[0], s[1]] + SpaceBeforeCapitals(s[2..]))
  {
    assert SpaceBeforeCapitals(s[1..]) == [s[1]] + SpaceBeforeCapitals(s[2..]) by {
      assert !IsAsciiUpper(s[1]);
      assert s[1..][1..] == s[2..];
    }
  }

  /** Step 2 passes a leading space through. */
  lemma UnitsAfterSpace(t: string)
    ensures SpaceBeforeUnits([' '] + t) == [' '] + SpaceBeforeUnits(t)
  {
    assert !StartsWithUnit([' '] + t);
    assert ([' '] + t)[1..] == t;
  }

  /** Step 2 on a string that starts with a unit. */
  lemma UnitsOfUnit(t: string)
    requires StartsWithUnit(t)
    ensures SpaceBeforeUnits(t) == [' '] + [t[0], t[1]] + SpaceBeforeUnits(t[2..])
  {
    assert t[..2] == [t[0], t[1]];
  }

  /** Spaced on a key that starts with a unit. */
  lemma SpacedOfUnit(s: string)
    requires StartsWithUnit(s)
    ensures Spaced(s) == "  " + [s[0]] + ([s[1]] + Spaced(s[2..]))
  {
    assert Spaced(s[1..]) == [s[1]] + Spaced(s[2..]) by {
      assert !StartsWithUnit(s[1..]);
      assert s[1..][1..] == s[2..];
    }
  }

  /** SpacedSteps for an upper-case first character that does not open a unit. */
  lemma SpacedStepsCapital(s: string)
    requires s != [] && IsAsciiUpper(s[0]) && !StartsWithUnit(s)
    requires SpaceBeforeUnits(SpaceBeforeCapitals(s[1..])) == Spaced(s[1..])
    ensures SpaceBeforeUnits(SpaceBeforeCapitals(s)) == Spaced(s)
  {
    var rest := SpaceBeforeCapitals(s[1..]);
    var t := [s[0]] + rest;
    assert SpaceBeforeCapitals(s) == [' '] + t;
    UnitsAfterSpace(t);
    assert !StartsWithUnit(t) by {
      if |s| > 1 {
        SpaceBeforeCapitalsHead(s[1..]);
      }
    }
    UnitsPlain(t);
    assert t[0] == s[0] && t[1..] == rest;
    assert Spaced(s) == " " + [s[0]] + Spaced(s[1..]);
    AppendAssociates(" ", [s[0]], Spaced(s[1..]));
  }

  /** Step 2 on a string that does not start with a unit. */
  lemma UnitsPlain(t: string)
    requires t != [] && !StartsWithUnit(t)
    ensures SpaceBeforeUnits(t) == [t[0]] + SpaceBeforeUnits(t[1..])
  {
  }

  lemma {:induction false} SpacedPrefixSplit(s: string, i: nat)
    requires i <= |s|
    ensures Spaced(s) == SpacedPrefix(s, i) + Spaced(s[i..])
  {
    if i > 0 {
      SpacedPrefixSplit(s[1..], i - 1);
      assert s[1..][i - 1..] == s[i..];
    }
  }

  // ---------------------------------------------------------------------------
  // Step 3 upper-cases exactly the word-initial characters
  // ---------------------------------------------------------------------------

  /** What step 3's `join` puts after the first (capitalised) piece. */
  function JoinedTail(ws: seq<string>): string
    requires |ws| >= 1
  {
    if |ws| == 1 then "" else [' '] + Join(CapitaliseWords(ws[1..]), ' ')
  }

  lemma JoinCapitalised(ws: seq<string>)
    requires |ws| >= 1
    ensures Join(CapitaliseWords(ws), ' ') == CapitaliseWord(ws[0]) + JoinedTail(ws)
  {
    var cs := CapitaliseWords(ws);
    if |ws| > 1 {
      var head, tail := CapitaliseWord(ws[0]), CapitaliseWords(ws[1..]);
      assert cs == [head] + tail;
      assert cs[0] == head && cs[1..] == tail;
      assert Join(cs, ' ') == head + [' '] + Join(tail, ' ');
      AppendAssociates(head, [' '], Join(tail, ' '));
    }
  }

  lemma {:induction false} CapitaliseFromSplit(s: string)
    ensures CapitaliseFrom(s, false) == Split(s, ' ')[0] + JoinedTail(Split(s, ' '))
    ensures CapitaliseFrom(s, true) == CapitaliseWord(Split(s, ' ')[0]) + JoinedTail(Split(s, ' '))
  {
    if s != [] {
      CapitaliseFromSplit(s[1..]);
      if s[0] == ' ' {
        CapitaliseFromSpace(s);
      } else {
        CapitaliseFromLetter(s);
      }
    }
  }

  /** CapitaliseFromSplit for a string that starts with a space. */
  lemma CapitaliseFromSpace(s: string)
    requires s != [] && s[0] == ' '
    requires CapitaliseFrom(s[1..], true) == CapitaliseWord(Split(s[1..], ' ')[0]) + JoinedTail(Split(s[1..], ' '))
    ensures CapitaliseFrom(s, false) == Split(s, ' ')[0] + JoinedTail(Split(s, ' '))
    ensures CapitaliseFrom(s, true) == CapitaliseWord(Split(s, ' ')[0]) + JoinedTail(Split(s, ' '))
  {
    var vs := Split(s[1..], ' ');
    var ws := Split(s, ' ');
    assert ws == [""] + vs;
    assert JoinedTail(ws) == [' '] + CapitaliseFrom(s[1..], true) by {
      assert ws[1..] == vs;
      JoinCapitalised(vs);
    }
    assert ToUpper(' ') == ' ';
  }

  /** CapitaliseFromSplit for a string that starts with something other than a space. */
  lemma CapitaliseFromLetter(s: string)
    requires s != [] && s[0] != ' '
    requires CapitaliseFrom(s[1..], false) == Split(s[1..], ' ')[0] + JoinedTail(Split(s[1..], ' '))
    ensures CapitaliseFrom(s, false) == Split(s, ' ')[0] + JoinedTail(Split(s, ' '))
    ensures CapitaliseFrom(s, true) == CapitaliseWord(Split(s, ' ')[0]) + JoinedTail(Split(s, ' '))
  {
    var vs := Split(s[1..], ' ');
    var c, w, t := CapitaliseFrom(s[1..], false), vs[0], JoinedTail(vs);
    SplitLetter(s);
    CapitaliseFromHead(s, false);
    CapitaliseFromHead(s, true);
    assert c == w + t;
    assert CapitaliseWord([s[0]] + w) == [ToUpper(s[0])] + w by {
      assert ([s[0]] + w)[1..] == w;
    }
    AppendAssociates([s[0]], w, t);
    AppendAssociates([ToUpper(s[0])], w, t);
  }

  /** The pieces of a string that starts with something other than a space. */
  lemma SplitLetter(s: string)
    requires s != [] && s[0] != ' '
    ensures Split(s, ' ')[0] == [s[0]] + Split(s[1..], ' ')[0]
    ensures JoinedTail(Split(s, ' ')) == JoinedTail(Split(s[1..], ' '))
  {
    var vs := Split(s[1..], ' ');
    var ws := Split(s, ' ');
    assert ws == [[s[0]] + vs[0]] + vs[1..];
    assert ws[1..] == vs[1..];
  }

  /** One step of CapitaliseFrom. */
  lemma CapitaliseFromHead(s: string, atWordStart: bool)
    requires s != []
    ensures CapitaliseFrom(s, atWordStart)
      == [if atWordStart then ToUpper(s[0]) else s[0]] + CapitaliseFrom(s[1..], s[0] == ' ')
  {
  }

  /** Steps 3's split, map and join upper-case the characters that open a word, and nothing else. */
  lemma CapitaliseWordsJoin(s: string)
    ensures Join(CapitaliseWords(Split(s, ' ')), ' ') == CapitaliseFrom(s, true)
  {
    CapitaliseFromSplit(s);
    JoinCapitalised(Split(s, ' '));
  }

  /** The label is the trimmed result of capitalising the word starts of Spaced(key). */
  lemma FormatKeyShape(key: string)
    ensures FormatKey(key) == Trim(CapitaliseFrom(Spaced(key), true))
  {
    SpacedSteps(key);
    CapitaliseWordsJoin(Spaced(key));
  }

  // ---------------------------------------------------------------------------
  // Properties of the label
  // ---------------------------------------------------------------------------

  lemma {:induction false} SpacedCapitalsAfterSpace(s: string)
    ensures CapitalsAfterSpace(Spaced(s))
  {
    if s != [] {
      var a := Lead(s) + [s[0]];
      var b := Spaced(s[1..]);
      SpacedCapitalsAfterSpace(s[1..]);
      assert Spaced(s) == a + b;
      forall i | 0 <= i < |a + b| && IsAsciiUpper((a + b)[i])
        ensures 0 < i && (a + b)[i - 1] == ' '
      {
        if i >= |a| {
          assert (a + b)[i] == b[i - |a|];
          assert (a + b)[i - 1] == b[i - 1 - |a|];
        }
      }
    }
  }

  /** A string in which every upper-case letter after the first character follows a space. */
  predicate InnerCapitalsAfterSpace(s: string)
  {
    forall i :: 0 < i < |s| && IsAsciiUpper(s[i]) ==> s[i - 1] == ' '
  }

  lemma CapitaliseFromCapitals(x: string)
    requires CapitalsAfterSpace(x)
    ensures InnerCapitalsAfterSpace(CapitaliseFrom(x, true))
  {
    var y := CapitaliseFrom(x, true);
    CapitaliseFromIsCaseVariant(x, true);
    forall i | 0 < i < |y| && IsAsciiUpper(y[i]) ensures y[i - 1] == ' ' {
      CapitaliseFromAt(x, true, i);
      CapitaliseFromAt(x, true, i - 1);
      ToUpperKeepsClass(x[i - 1]);
      ToUpperKeepsClass(x[i]);
    }
  }

  lemma TrimInnerCapitals(y: string)
    requires InnerCapitalsAfterSpace(y)
    ensures InnerCapitalsAfterSpace(Trim(y))
  {
    var a, b := TrimIsSlice(y);
    var t := Trim(y);
    forall i | 0 < i < |t| && IsAsciiUpper(t[i]) ensures t[i - 1] == ' ' {
      assert t[i] == y[a + i] && t[i - 1] == y[a + i - 1];
    }
  }

  /** Every upper-case letter of a label, other than its first character, follows a space. */
  lemma LabelCapitalsFollowSpaces(key: string)
    ensures InnerCapitalsAfterSpace(FormatKey(key))
  {
    FormatKeyShape(key);
    SpacedCapitalsAfterSpace(key);
    CapitaliseFromCapitals(Spaced(key));
    TrimInnerCapitals(CapitaliseFrom(Spaced(key), true));
  }

  lemma {:induction false} SpacedKeepsText(s: string)
    ensures RemoveWhitespace(Spaced(s)) == RemoveWhitespace(s)
  {
    if s != [] {
      SpacedKeepsText(s[1..]);
      RemoveWhitespaceAppend(Lead(s) + [s[0]], Spaced(s[1..]));
      RemoveWhitespaceAppend(Lead(s), [s[0]]);
      RemoveAllWhitespace(Lead(s));
      RemoveWhitespaceAppend([s[0]], s[1..]);
      assert [s[0]] + s[1..] == s;
    }
  }

  lemma {:induction false} SpacedPrefixKeepsText(s: string, i: nat)
    requires i <= |s|
    ensures RemoveWhitespace(SpacedPrefix(s, i)) == RemoveWhitespace(s[..i])
  {
    if i > 0 {
      SpacedPrefixKeepsText(s[1..], i - 1);
      RemoveWhitespaceAppend(Lead(s) + [s[0]], SpacedPrefix(s[1..], i - 1));
      RemoveWhitespaceAppend(Lead(s), [s[0]]);
      RemoveAllWhitespace(Lead(s));
      RemoveWhitespaceAppend([s[0]], s[1..][..i - 1]);
      assert [s[0]] + s[1..][..i - 1] == s[..i];
    }
  }

  /** Deleting white space from two case variants leaves two case variants. */
  lemma {:induction false} RemoveWhitespaceCaseVariant(a: string, b: string)
    requires CaseVariant(a, b)
    ensures CaseVariant(RemoveWhitespace(a), RemoveWhitespace(b))
  {
    if a != [] {
      ToUpperKeepsClass(b[0]);
      assert CaseVariant(a[1..], b[1..]) by {
        forall i | 0 <= i < |a| - 1
          ensures a[1..][i] == b[1..][i] || a[1..][i] == ToUpper(b[1..][i])
        {
          assert a[1..][i] == a[i + 1] && b[1..][i] == b[i + 1];
        }
      }
      RemoveWhitespaceCaseVariant(a[1..], b[1..]);
      var ra, rb := RemoveWhitespace(a[1..]), RemoveWhitespace(b[1..]);
      if !IsWhitespace(b[0]) {
        assert RemoveWhitespace(a) == [a[0]] + ra;
        assert RemoveWhitespace(b) == [b[0]] + rb;
        forall i | 0 <= i < 1 + |ra|
          ensures ([a[0]] + ra)[i] == ([b[0]] + rb)[i] || ([a[0]] + ra)[i] == ToUpper(([b[0]] + rb)[i])
        {
          if i > 0 {
            assert ([a[0]] + ra)[i] == ra[i - 1] && ([b[0]] + rb)[i] == rb[i - 1];
          }
        }
      }
    }
  }

  lemma CapitaliseFromIsCaseVariant(s: string, atWordStart: bool)
    ensures CaseVariant(CapitaliseFrom(s, atWordStart), s)
  {
    var r := CapitaliseFrom(s, atWordStart);
    forall i | 0 <= i < |r| ensures r[i] == s[i] || r[i] == ToUpper(s[i]) {
      CapitaliseFromAt(s, atWordStart, i);
    }
  }

  /**
   * Deleting white space from the label gives the key with its white space
   * deleted, up to the upper-casing of word-initial letters: nothing is
   * dropped, added or reordered.
   */
  lemma LabelKeepsText(key: string)
    ensures CaseVariant(RemoveWhitespace(FormatKey(key)), RemoveWhitespace(key))
  {
    var x := Spaced(key);
    var y := CapitaliseFrom(x, true);
    FormatKeyShape(key);
    TrimKeepsText(y);
    CapitaliseFromIsCaseVariant(x, true);
    RemoveWhitespaceCaseVariant(y, x);
    SpacedKeepsText(key);
  }

  lemma {:induction false} SpacedOnlySpaces(s: string)
    requires OnlySpaces(s)
    ensures OnlySpaces(Spaced(s))
  {
    if s != [] {
      assert OnlySpaces(s[1..]) by {
        forall i | 0 <= i < |s| - 1 && IsWhitespace(s[1..][i]) ensures s[1..][i] == ' ' {
          assert s[1..][i] == s[i + 1];
        }
      }
      SpacedOnlySpaces(s[1..]);
      var a := Lead(s) + [s[0]];
      var b := Spaced(s[1..]);
      assert Spaced(s) == a + b;
      forall i | 0 <= i < |a + b| && IsWhitespace((a + b)[i]) ensures (a + b)[i] == ' ' {
        if i >= |a| {
          assert (a + b)[i] == b[i - |a|];
        }
      }
    }
  }

  /** No character that opens a space-separated word of s is a lower-case letter. */
  predicate WordsCapitalised(s: string)
  {
    forall i :: 0 <= i < |s| && (i == 0 || s[i - 1] == ' ') ==> !IsAsciiLower(s[i])
  }

  /** No character of s that is first or follows white space is a lower-case letter. */
  predicate CapitalisedAfterWhitespace(s: string)
  {
    forall i :: 0 <= i < |s| && (i == 0 || IsWhitespace(s[i - 1])) ==> !IsAsciiLower(s[i])
  }

  /** In a string whose only white space is the space, capitalising the word starts leaves none lower-case. */
  lemma CapitaliseFromWords(x: string)
    requires OnlySpaces(x)
    ensures CapitalisedAfterWhitespace(CapitaliseFrom(x, true))
  {
    var y := CapitaliseFrom(x, true);
    CapitaliseFromIsCaseVariant(x, true);
    forall i | 0 <= i < |y| && (i == 0 || IsWhitespace(y[i - 1])) ensures !IsAsciiLower(y[i]) {
      CapitaliseFromAt(x, true, i);
      ToUpperKeepsClass(x[i]);
      if i > 0 {
        CapitaliseFromAt(x, true, i - 1);
        ToUpperKeepsClass(x[i - 1]);
      }
    }
  }

  lemma TrimWords(y: string)
    requires CapitalisedAfterWhitespace(y)
    ensures WordsCapitalised(Trim(y))
  {
    var a, b := TrimIsSlice(y);
    var t := Trim(y);
    forall i | 0 <= i < |t| && (i == 0 || t[i - 1] == ' ') ensures !IsAsciiLower(t[i]) {
      assert t[i] == y[a + i];
      if i == 0 {
        if a > 0 {
          assert y[..a][a - 1] == y[a - 1];
          assert IsWhitespace(y[a - 1]);
        }
      } else {
        assert t[i - 1] == y[a + i - 1];
        assert IsWhitespace(y[a + i - 1]);
      }
    }
  }

  /**
   * When the key's only white space is the space character, every
   * space-separated word of the label starts with a character that is not a
   * lower-case letter.
   */
  lemma LabelWordsCapitalised(key: string)
    requires OnlySpaces(key)
    ensures WordsCapitalised(FormatKey(key))
  {
    FormatKeyShape(key);
    SpacedOnlySpaces(key);
    CapitaliseFromWords(Spaced(key));
    TrimWords(CapitaliseFrom(Spaced(key), true));
  }

  /** Spaced(s) shows a unit at position i of s as two spaces and the unit. */
  lemma SpacedUnit(s: string, i: nat)
    requires i + 2 <= |s| && StartsWithUnit(s[i..])
    ensures var x, q := Spaced(s), |SpacedPrefix(s, i)|;
      q + 4 <= |x| && x[..q] == SpacedPrefix(s, i)
      && x[q] == ' ' && x[q + 1] == ' ' && x[q + 2] == s[i] && x[q + 3] == s[i + 1]
  {
    SpacedPrefixSplit(s, i);
    var rest := s[i..];
    var sp := SpacedPrefix(s, i);
    assert rest[0] == s[i] && rest[1] == s[i + 1];
    assert !StartsWithUnit(rest[1..]) by { assert rest[1..][0] == rest[1]; }
    var tail := Spaced(rest[1..]);
    assert tail[0] == rest[1];
    assert Spaced(rest) == "  " + [rest[0]] + tail;
    var x := Spaced(s);
    assert x == sp + ("  " + [rest[0]] + tail);
  }

  /** Capitalising word starts leaves two spaces followed by an upper-case letter and a non-space alone. */
  lemma CapitaliseKeepsUnit(x: string, q: nat)
    requires q + 4 <= |x| && x[q] == ' ' && x[q + 1] == ' ' && IsAsciiUpper(x[q + 2]) && x[q + 3] != ' '
    ensures var y := CapitaliseFrom(x, true);
      y[q] == ' ' && y[q + 1] == ' ' && y[q + 2] == x[q + 2] && y[q + 3] == x[q + 3]
  {
    CapitaliseFromAt(x, true, q);
    CapitaliseFromAt(x, true, q + 1);
    CapitaliseFromAt(x, true, q + 2);
    CapitaliseFromAt(x, true, q + 3);
    ToUpperKeepsClass(x[q]);
    ToUpperKeepsClass(x[q + 1]);
    ToUpperKeepsClass(x[q + 2]);
  }

  /**
   * Trimming keeps a piece of y that ends in a non-white-space character and
   * has non-white-space text before it; the text before it keeps its
   * non-white-space characters.
   */
  lemma SliceOfSlice(s: string, a: nat, b: nat, c: nat, d: nat)
    requires a <= b <= |s| && c <= d <= b - a
    ensures s[a..b][c..d] == s[a + c..a + d]
  {
    forall k | 0 <= k < d - c ensures s[a..b][c..d][k] == s[a + c..a + d][k] {
      assert s[a..b][c..d][k] == s[a..b][c + k] == s[a + c + k];
    }
  }

  lemma TrimKeepsPiece(y: string, q: nat, n: nat) returns (p: nat)
    requires 0 < n && q + n <= |y| && !IsWhitespace(y[q + n - 1])
    requires RemoveWhitespace(y[..q]) != []
    ensures p + n <= |Trim(y)| && Trim(y)[p..p + n] == y[q..q + n]
    ensures RemoveWhitespace(Trim(y)[..p]) == RemoveWhitespace(y[..q])
  {
    var a, b := TrimIsSlice(y);
    p := SliceKeepsPiece(y, a, b, q, n);
  }

  /** The same for any slice y[a..b] with only white space outside it. */
  lemma SliceKeepsPiece(y: string, a: nat, b: nat, q: nat, n: nat) returns (p: nat)
    requires a <= b <= |y| && AllWhitespace(y[..a]) && AllWhitespace(y[b..])
    requires 0 < n && q + n <= |y| && !IsWhitespace(y[q + n - 1])
    requires RemoveWhitespace(y[..q]) != []
    ensures p + n <= b - a && y[a..b][p..p + n] == y[q..q + n]
    ensures RemoveWhitespace(y[a..b][..p]) == RemoveWhitespace(y[..q])
  {
    assert a <= q by {
      RemoveAllWhitespace(y[..q]);
      var k :| 0 <= k < q && !IsWhitespace(y[..q][k]);
      assert y[..q][k] == y[k];
      InsideTheSlice(y, a, b, k);
    }
    assert q + n <= b by {
      InsideTheSlice(y, a, b, q + n - 1);
    }
    p := q - a;
    SliceOfSlice(y, a, b, p, p + n);
    SliceOfSlice(y, a, b, 0, p);
    DropLeadingWhitespace(y, a, q);
  }

  /** A character that is not white space lies inside y[a..b]. */
  lemma InsideTheSlice(y: string, a: nat, b: nat, k: nat)
    requires a <= b <= |y| && AllWhitespace(y[..a]) && AllWhitespace(y[b..])
    requires k < |y| && !IsWhitespace(y[k])
    ensures a <= k < b
  {
    assert forall m :: 0 <= m < a ==> y[..a][m] == y[m];
    assert forall m :: b <= m < |y| ==> y[b..][m - b] == y[m];
  }

  /** Leading white space adds nothing once white space is deleted. */
  lemma DropLeadingWhitespace(y: string, a: nat, q: nat)
    requires a <= q <= |y| && AllWhitespace(y[..a])
    ensures RemoveWhitespace(y[a..q]) == RemoveWhitespace(y[..q])
  {
    assert y[..q] == y[..a] + y[a..q];
    RemoveWhitespaceAppend(y[..a], y[a..q]);
    RemoveAllWhitespace(y[..a]);
  }

  /**
   * A "Dm" or "Kg" of the key with something other than white space before it
   * appears in the label with two spaces in front, at the place where the
   * label's text before it corresponds to the key's text before it.
   */
  lemma LabelUnitsAfterTwoSpaces(key: string, i: nat, j: nat)
    requires j < i && i + 2 <= |key|
    requires key[i..i + 2] == "Dm" || key[i..i + 2] == "Kg"
    requires !IsWhitespace(key[j])
    ensures var caption := FormatKey(key);
      exists p :: 0 <= p && p + 4 <= |caption| && caption[p..p + 4] == "  " + key[i..i + 2]
        && CaseVariant(RemoveWhitespace(caption[..p]), RemoveWhitespace(key[..i]))
  {
    var y, q := CapitalisedUnit(key, i, j);
    var u := "  " + key[i..i + 2];
    assert !IsWhitespace(u[3]) by {
      assert u[3] == key[i..i + 2][1];
      assert key[i..i + 2][1] == 'm' || key[i..i + 2][1] == 'g';
    }
    TrimmedPiece(y, q, u, RemoveWhitespace(key[..i]));
    FormatKeyShape(key);
  }

  /** A piece of y with text before it survives trimming, with that text still before it. */
  lemma TrimmedPiece(y: string, q: nat, u: string, before: string)
    requires |u| == 4 && q + 4 <= |y| && y[q..q + 4] == u && !IsWhitespace(u[3])
    requires CaseVariant(RemoveWhitespace(y[..q]), before) && RemoveWhitespace(y[..q]) != []
    ensures exists p :: 0 <= p && p + 4 <= |Trim(y)| && Trim(y)[p..p + 4] == u
                        && CaseVariant(RemoveWhitespace(Trim(y)[..p]), before)
  {
    assert y[q + 3] == u[3] by { assert y[q..q + 4][3] == y[q + 3]; }
    var p := TrimKeepsPiece(y, q, 4);
    assert Trim(y)[p..p + 4] == u;
  }

  /** Where the unit at position i of the key sits after capitalisation, and what precedes it. */
  lemma CapitalisedUnit(key: string, i: nat, j: nat) returns (y: string, q: nat)
    requires j < i && i + 2 <= |key|
    requires key[i..i + 2] == "Dm" || key[i..i + 2] == "Kg"
    requires !IsWhitespace(key[j])
    ensures y == CapitaliseFrom(Spaced(key), true)
    ensures q + 4 <= |y| && y[q..q + 4] == "  " + key[i..i + 2]
    ensures CaseVariant(RemoveWhitespace(y[..q]), RemoveWhitespace(key[..i]))
    ensures RemoveWhitespace(y[..q]) != []
  {
    y := CapitaliseFrom(Spaced(key), true);
    q := |SpacedPrefix(key, i)|;
    assert StartsWithUnit(key[i..]) by { assert key[i..][..2] == key[i..i + 2]; }
    CapitalisedUnitAt(key, i);
    CapitalisedUnitPrefix(key, i);
    assert key[..i][j] == key[j];
    RemoveWhitespaceNonEmpty(key[..i], j);
  }

  lemma CapitalisedUnitAt(key: string, i: nat)
    requires i + 2 <= |key| && StartsWithUnit(key[i..])
    ensures var y, q := CapitaliseFrom(Spaced(key), true), |SpacedPrefix(key, i)|;
      q + 4 <= |y| && y[q..q + 4] == "  " + key[i..i + 2]
  {
    var x, q := Spaced(key), |SpacedPrefix(key, i)|;
    SpacedUnit(key, i);
    CapitaliseKeepsUnit(x, q);
    TwoSpacesAndPair(CapitaliseFrom(x, true), q, key, i);
  }

  lemma TwoSpacesAndPair(y: string, q: nat, s: string, i: nat)
    requires q + 4 <= |y| && i + 2 <= |s|
    requires y[q] == ' ' && y[q + 1] == ' ' && y[q + 2] == s[i] && y[q + 3] == s[i + 1]
    ensures y[q..q + 4] == "  " + s[i..i + 2]
  {
    assert y[q..q + 4] == [y[q], y[q + 1], y[q + 2], y[q + 3]];
    assert s[i..i + 2] == [s[i], s[i + 1]];
  }

  lemma CapitalisedUnitPrefix(key: string, i: nat)
    requires i + 2 <= |key| && StartsWithUnit(key[i..])
    ensures var y, q := CapitaliseFrom(Spaced(key), true), |SpacedPrefix(key, i)|;
      q <= |y| && CaseVariant(RemoveWhitespace(y[..q]), RemoveWhitespace(key[..i]))
  {
    SpacedUnit(key, i);
    SpacedPrefixKeepsText(key, i);
    CapitalisedPrefix(Spaced(key), |SpacedPrefix(key, i)|);
  }

  lemma CapitalisedPrefix(x: string, q: nat)
    requires q <= |x|
    ensures CaseVariant(RemoveWhitespace(CapitaliseFrom(x, true)[..q]), RemoveWhitespace(x[..q]))
  {
    var y := CapitaliseFrom(x, true);
    assert CaseVariant(y[..q], x[..q]) by {
      CapitaliseFromIsCaseVariant(x, true);
      forall k | 0 <= k < q ensures y[..q][k] == x[..q][k] || y[..q][k] == ToUpper(x[..q][k]) {
        assert y[..q][k] == y[k] && x[..q][k] == x[k];
      }
    }
    RemoveWhitespaceCaseVariant(y[..q], x[..q]);
  }
}
