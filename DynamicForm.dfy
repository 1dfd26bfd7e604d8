/**
 * The non-visual logic of the dynamic form (components/DynamicForm.tsx): the label
 * formatter, the rule that every required field must hold a truthy value, and the
 * state updates of editing, submitting and resetting the form.
 */
module DynamicForm {
  import opened Types
  import opened JsStrings

  // ---------------------------------------------------------------------------
  // formatFieldLabel

  /** `word.charAt(0).toUpperCase() + word.slice(1).toLowerCase()`. */
  function CapitalizeWord(word: string): string {
    if word == [] then [] else [UpperChar(word[0])] + ToLower(word[1..])
  }

  function CapitalizeWords(words: seq<string>): (r: seq<string>)
    ensures |r| == |words|
    decreases |words|
  {
    if words == [] then [] else [CapitalizeWord(words[0])] + CapitalizeWords(words[1..])
  }

  /** `s.split(' ').map(CapitalizeWord).join(' ')`. */
  function TitleCase(s: string): string {
    Join(CapitalizeWords(Split(s, ' ')), " ")
  }

  /**
   * `s.replace(/([a-z])([A-Z])/g, '$1 $2')`: scanning left to right, each lowercase
   * letter followed by an uppercase one gets a space between them, and the scan
   * resumes after the pair.
   */
  function SplitCamel(s: string): (r: string)
    ensures s != [] ==> r != [] && r[0] == s[0]
    decreases |s|
  {
    if |s| >= 2 && IsAsciiLower(s[0]) && IsAsciiUpper(s[1]) then [s[0], ' ', s[1]] + SplitCamel(s[2..])
    else if s == [] then []
    else [s[0]] + SplitCamel(s[1..])
  }

  /** `formatted === formatted.toUpperCase() && /[A-Z]/.test(formatted)`. */
  predicate IsAllCaps(s: string) {
    s == ToUpper(s) && exists i :: 0 <= i < |s| && IsAsciiUpper(s[i])
  }

  /** `fieldName.replace(/_/g, ' ').replace(/-/g, ' ')`. */
  function Separated(fieldName: string): string {
    ReplaceAll(ReplaceAll(fieldName, '_', ' '), '-', ' ')
  }

  /**
   * The label before trimming: separators become spaces; an all-caps name is
   * title-cased word by word, any other name has its camelCase humps split first.
   */
  function Untrimmed(fieldName: string): string {
    var formatted := Separated(fieldName);
    if IsAllCaps(formatted) then TitleCase(formatted) else TitleCase(SplitCamel(formatted))
  }

  /** formatFieldLabel: the untrimmed label, trimmed. */
  function FormatFieldLabel(fieldName: string): string {
    Trim(Untrimmed(fieldName))
  }

  // ---------------------------------------------------------------------------
  // Reference definitions for the label

  /** Upper-case at a word start, lower-case elsewhere. */
  function CaseAt(wordStart: bool, c: char): char {
    if wordStart then UpperChar(c) else LowerChar(c)
  }

  /**
   * Title case character by character: the first character (when `atStart`) and
   * every character after a space are upper-cased, all others lower-cased.
   */
  function CaseFrom(s: string, atStart: bool): (r: string) {
    seq(|s|, i requires 0 <= i < |s| => CaseAt(if i == 0 then atStart else s[i - 1] == ' ', s[i]))
  }

  /** The characters of `s` that are not spaces, in order. */
  function WithoutSpaces(s: string): string
    decreases |s|
  {
    if s == [] then [] else (if s[0] == ' ' then [] else [s[0]]) + WithoutSpaces(s[1..])
  }

  /** How many lowercase letters in `s` are followed by an uppercase one. */
  function CamelBoundaries(s: string): nat
    decreases |s|
  {
    if |s| < 2 then 0
    else (if IsAsciiLower(s[0]) && IsAsciiUpper(s[1]) then 1 else 0) + CamelBoundaries(s[1..])
  }

  /** A lowercase letter directly precedes `s[i]`, an uppercase letter. */
  predicate BoundaryAt(s: string, i: int) {
    0 < i < |s| && IsAsciiLower(s[i - 1]) && IsAsciiUpper(s[i])
  }

  /** The characters of `s` from index `i` on, each boundary character preceded by a space. */
  function SpacedFrom(s: string, i: nat): string
    decreases |s| - i
  {
    if i >= |s| then [] else (if BoundaryAt(s, i) then [' ', s[i]] else [s[i]]) + SpacedFrom(s, i + 1)
  }

  predicate HasCamelBoundary(s: string) {
    exists i :: 0 <= i < |s| - 1 && IsAsciiLower(s[i]) && IsAsciiUpper(s[i + 1])
  }

  // ---------------------------------------------------------------------------
  // Lemmas on the label

  lemma CaseFromCons(s: string, atStart: bool)
    requires s != []
    ensures CaseFrom(s, atStart) == [CaseAt(atStart, s[0])] + CaseFrom(s[1..], s[0] == ' ')
  {
    var lhs := CaseFrom(s, atStart);
    var rhs := [CaseAt(atStart, s[0])] + CaseFrom(s[1..], s[0] == ' ');
    assert |lhs| == |rhs|;
    forall i | 0 <= i < |lhs| ensures lhs[i] == rhs[i] {
      if i > 0 {
        assert s[1..][i - 1] == s[i];
        if i > 1 { assert s[1..][i - 2] == s[i - 1]; }
      }
    }
  }

  lemma JoinConsChar(x: char, word: string, rest: seq<string>)
    ensures Join([[x] + word] + rest, " ") == [x] + Join([word] + rest, " ")
  {
    if rest != [] {
      assert ([[x] + word] + rest)[1..] == rest;
      assert ([word] + rest)[1..] == rest;
    }
  }

  /** The first word, capitalized at a word start and lower-cased inside a word. */
  function FirstWord(word: string, atStart: bool): string {
    if atStart then CapitalizeWord(word) else ToLower(word)
  }

  /** Split/map/join title case with the first word treated as `atStart` says. */
  function SplitTitle(s: string, atStart: bool): string {
    var pieces := Split(s, ' ');
    Join([FirstWord(pieces[0], atStart)] + CapitalizeWords(pieces[1..]), " ")
  }

  lemma SplitTitleSpace(s: string, atStart: bool)
    requires s != [] && s[0] == ' '
    ensures SplitTitle(s, atStart) == " " + SplitTitle(s[1..], true)
  {
    var tail := Split(s[1..], ' ');
    var pieces := Split(s, ' ');
    assert pieces == [[]] + tail;
    assert pieces[0] == [] && pieces[1..] == tail;
    var words := CapitalizeWords(tail);
    assert words == [FirstWord(tail[0], true)] + CapitalizeWords(tail[1..]);
    assert FirstWord([], atStart) == [];
    assert ([[]] + words)[1..] == words;
  }

  lemma FirstWordCons(c: char, w: string, atStart: bool)
    ensures FirstWord([c] + w, atStart) == [CaseAt(atStart, c)] + FirstWord(w, false)
  {
    assert ([c] + w)[1..] == w;
    assert ToLower([c] + w) == [LowerChar(c)] + ToLower(w);
  }

  lemma SplitTitleLetter(s: string, atStart: bool)
    requires s != [] && s[0] != ' '
    ensures SplitTitle(s, atStart) == [CaseAt(atStart, s[0])] + SplitTitle(s[1..], false)
  {
    var tail := Split(s[1..], ' ');
    var pieces := Split(s, ' ');
    var w := tail[0];
    assert pieces[0] == [s[0]] + w && pieces[1..] == tail[1..];
    FirstWordCons(s[0], w, atStart);
    JoinConsChar(CaseAt(atStart, s[0]), FirstWord(w, false), CapitalizeWords(tail[1..]));
  }

  lemma {:induction false} TitleCaseFrom(s: string, atStart: bool)
    ensures SplitTitle(s, atStart) == CaseFrom(s, atStart)
    decreases |s|
  {
    if s == [] {
      assert Split(s, ' ') == [[]];
      assert FirstWord([], atStart) == [];
    } else {
      CaseFromCons(s, atStart);
      if s[0] == ' ' {
        SplitTitleSpace(s, atStart);
        TitleCaseFrom(s[1..], true);
        assert CaseAt(atStart, ' ') == ' ';
      } else {
        SplitTitleLetter(s, atStart);
        TitleCaseFrom(s[1..], false);
      }
    }
  }

  /**
   * Title-casing by split/map/join upper-cases exactly the first character and every
   * character after a space, and lower-cases every other character; the length is unchanged.
   */
  lemma TitleCaseByCharacter(s: string)
    ensures |TitleCase(s)| == |s|
    ensures forall i :: 0 <= i < |s| ==>
      TitleCase(s)[i] == if i == 0 || s[i - 1] == ' ' then UpperChar(s[i]) else LowerChar(s[i])
  {
    var pieces := Split(s, ' ');
    assert CapitalizeWords(pieces) == [FirstWord(pieces[0], true)] + CapitalizeWords(pieces[1..]);
    TitleCaseFrom(s, true);
  }

  lemma {:induction false} WithoutSpacesAppend(a: string, b: string)
    ensures WithoutSpaces(a + b) == WithoutSpaces(a) + WithoutSpaces(b)
    decreases |a|
  {
    if a == [] {
      assert a + b == b;
    } else {
      assert (a + b)[0] == a[0] && (a + b)[1..] == a[1..] + b;
      WithoutSpacesAppend(a[1..], b);
    }
  }

  /** One step of the camelCase split, at a lowercase-uppercase pair. */
  lemma SplitCamelAtPair(s: string)
    requires |s| >= 2 && IsAsciiLower(s[0]) && IsAsciiUpper(s[1])
    ensures SplitCamel(s) == [s[0], ' ', s[1]] + SplitCamel(s[2..])
  {
  }

  /** One step of the camelCase split, anywhere else. */
  lemma SplitCamelElsewhere(s: string)
    requires s != [] && !(|s| >= 2 && IsAsciiLower(s[0]) && IsAsciiUpper(s[1]))
    ensures SplitCamel(s) == [s[0]] + SplitCamel(s[1..])
  {
  }

  /**
   * The camelCase split, character by character: every character of `s` is kept in
   * order, and a space goes before `s[i]` exactly when a lowercase letter precedes it
   * and it is an uppercase letter.
   */
  lemma SplitCamelByCharacter(s: string)
    ensures SplitCamel(s) == SpacedFrom(s, 0)
  {
    assert s[0..] == s;
    SplitCamelSpacedFrom(s, 0);
  }

  lemma {:induction false} SplitCamelSpacedFrom(s: string, i: nat)
    requires i <= |s| && !BoundaryAt(s, i)
    ensures SplitCamel(s[i..]) == SpacedFrom(s, i)
    decreases |s| - i
  {
    if i < |s| {
      var u := s[i..];
      if |u| >= 2 && IsAsciiLower(u[0]) && IsAsciiUpper(u[1]) {
        SplitCamelAtPair(u);
        assert u[2..] == s[i + 2..];
        SplitCamelSpacedFrom(s, i + 2);
        SpacedFromPair(s, i);
      } else {
        SplitCamelElsewhere(u);
        assert u[1..] == s[i + 1..];
        SplitCamelSpacedFrom(s, i + 1);
      }
    }
  }

  lemma SpacedFromPair(s: string, i: nat)
    requires i + 1 < |s| && !BoundaryAt(s, i) && IsAsciiLower(s[i]) && IsAsciiUpper(s[i + 1])
    ensures SpacedFrom(s, i) == [s[i], ' ', s[i + 1]] + SpacedFrom(s, i + 2)
  {
    assert BoundaryAt(s, i + 1);
    assert SpacedFrom(s, i) == [s[i]] + ([' ', s[i + 1]] + SpacedFrom(s, i + 2));
  }

  /** The camelCase split only inserts spaces: the other characters stay, in order. */
  lemma {:induction false} SplitCamelOnlyInsertsSpaces(s: string)
    ensures WithoutSpaces(SplitCamel(s)) == WithoutSpaces(s)
    decreases |s|
  {
    if |s| >= 2 && IsAsciiLower(s[0]) && IsAsciiUpper(s[1]) {
      SplitCamelOnlyInsertsSpaces(s[2..]);
      SplitCamelAtPair(s);
      var rest := SplitCamel(s[2..]);
      WithoutSpacesAppend([s[0], ' ', s[1]], rest);
      WithoutSpacesAppend([s[0], s[1]], s[2..]);
      assert s == [s[0], s[1]] + s[2..];
      assert WithoutSpaces([s[0], ' ', s[1]]) == [s[0], s[1]] by {
        assert [s[0], ' ', s[1]][1..] == [' ', s[1]];
        assert [' ', s[1]][1..] == [s[1]];
      }
      assert WithoutSpaces([s[0], s[1]]) == [s[0], s[1]] by {
        assert [s[0], s[1]][1..] == [s[1]];
      }
    } else if s != [] {
      SplitCamelOnlyInsertsSpaces(s[1..]);
      SplitCamelElsewhere(s);
      WithoutSpacesAppend([s[0]], SplitCamel(s[1..]));
      WithoutSpacesAppend([s[0]], s[1..]);
      assert s == [s[0]] + s[1..];
    }
  }

  /** The camelCase split inserts exactly one character per lowercase-uppercase pair. */
  lemma {:induction false} SplitCamelLength(s: string)
    ensures |SplitCamel(s)| == |s| + CamelBoundaries(s)
    decreases |s|
  {
    if |s| >= 2 && IsAsciiLower(s[0]) && IsAsciiUpper(s[1]) {
      SplitCamelLength(s[2..]);
      SplitCamelAtPair(s);
      assert CamelBoundaries(s[1..]) == CamelBoundaries(s[2..]) by {
        assert s[1..][1..] == s[2..];
      }
    } else if s != [] {
      SplitCamelLength(s[1..]);
      SplitCamelElsewhere(s);
    }
  }

  /** After the camelCase split no lowercase letter is directly followed by an uppercase one. */
  lemma {:induction false} SplitCamelLeavesNoPair(s: string)
    ensures !HasCamelBoundary(SplitCamel(s))
    decreases |s|
  {
    var r := SplitCamel(s);
    if |s| >= 2 && IsAsciiLower(s[0]) && IsAsciiUpper(s[1]) {
      SplitCamelLeavesNoPair(s[2..]);
      SplitCamelAtPair(s);
      var rest := SplitCamel(s[2..]);
      forall i | 0 <= i < |r| - 1 ensures !(IsAsciiLower(r[i]) && IsAsciiUpper(r[i + 1])) {
        if i >= 3 {
          assert r[i] == rest[i - 3] && r[i + 1] == rest[i - 2];
        }
      }
    } else if s != [] {
      SplitCamelLeavesNoPair(s[1..]);
      SplitCamelElsewhere(s);
      var rest := SplitCamel(s[1..]);
      forall i | 0 <= i < |r| - 1 ensures !(IsAsciiLower(r[i]) && IsAsciiUpper(r[i + 1])) {
        if i >= 1 {
          assert r[i] == rest[i - 1] && r[i + 1] == rest[i];
        }
      }
    }
  }

  /** Every character of the camelCase split is a character of its input or a space. */
  lemma {:induction false} SplitCamelChars(s: string)
    ensures forall i :: 0 <= i < |SplitCamel(s)| ==> SplitCamel(s)[i] in s || SplitCamel(s)[i] == ' '
    decreases |s|
  {
    var r := SplitCamel(s);
    if |s| >= 2 && IsAsciiLower(s[0]) && IsAsciiUpper(s[1]) {
      SplitCamelChars(s[2..]);
      SplitCamelAtPair(s);
      var rest := SplitCamel(s[2..]);
      forall i | 3 <= i < |r| ensures r[i] in s || r[i] == ' ' {
        assert r[i] == rest[i - 3];
        if rest[i - 3] in s[2..] {
          var k :| 0 <= k < |s[2..]| && s[2..][k] == rest[i - 3];
          assert s[k + 2] == r[i];
        }
      }
      assert r[0] == s[0] && r[2] == s[1];
    } else if s != [] {
      SplitCamelChars(s[1..]);
      SplitCamelElsewhere(s);
      var rest := SplitCamel(s[1..]);
      forall i | 1 <= i < |r| ensures r[i] in s || r[i] == ' ' {
        assert r[i] == rest[i - 1];
        if rest[i - 1] in s[1..] {
          var k :| 0 <= k < |s[1..]| && s[1..][k] == rest[i - 1];
          assert s[k + 1] == r[i];
        }
      }
    }
  }

  /** Without a lowercase-uppercase pair the camelCase split changes nothing. */
  lemma {:induction false} SplitCamelWithoutBoundary(s: string)
    requires !HasCamelBoundary(s)
    ensures SplitCamel(s) == s
    decreases |s|
  {
    if s != [] {
      assert !(|s| >= 2 && IsAsciiLower(s[0]) && IsAsciiUpper(s[1]));
      assert !HasCamelBoundary(s[1..]) by {
        forall i | 0 <= i < |s[1..]| - 1 ensures !(IsAsciiLower(s[1..][i]) && IsAsciiUpper(s[1..][i + 1])) {
          assert s[1..][i] == s[i + 1] && s[1..][i + 1] == s[i + 2];
        }
      }
      SplitCamelWithoutBoundary(s[1..]);
    }
  }

  /**
   * The all-caps branch never changes the outcome: an all-caps string has no
   * lowercase letter, so no camelCase pair, and every label is the trimmed title case
   * of the camelCase-split, separator-free name.
   */
  lemma LabelPipelineUniform(fieldName: string)
    ensures FormatFieldLabel(fieldName) == Trim(TitleCase(SplitCamel(Separated(fieldName))))
  {
    var formatted := Separated(fieldName);
    if IsAllCaps(formatted) {
      assert !HasCamelBoundary(formatted) by {
        forall i | 0 <= i < |formatted| ensures !IsAsciiLower(formatted[i]) {
          assert formatted[i] == ToUpper(formatted)[i] == UpperChar(formatted[i]);
        }
      }
      SplitCamelWithoutBoundary(formatted);
    }
  }

  /** No separator is in `s`. */
  predicate NoSeparators(s: string) {
    '_' !in s && '-' !in s
  }

  lemma SeparatedHasNoSeparators(fieldName: string)
    ensures NoSeparators(Separated(fieldName))
  {
    var once := ReplaceAll(fieldName, '_', ' ');
    var twice := ReplaceAll(once, '-', ' ');
    forall i | 0 <= i < |twice| ensures twice[i] != '_' && twice[i] != '-' {
      assert once[i] != '_';
    }
  }

  lemma TitleCaseKeepsNoSeparators(s: string)
    requires NoSeparators(s)
    ensures NoSeparators(TitleCase(s))
  {
    var titled := TitleCase(s);
    TitleCaseByCharacter(s);
    forall i | 0 <= i < |titled| ensures titled[i] != '_' && titled[i] != '-' {
      var c := s[i];
      assert c in s;
      if i == 0 || s[i - 1] == ' ' {
        assert titled[i] == UpperChar(c);
      } else {
        assert titled[i] == LowerChar(c);
      }
    }
  }

  /**
   * The camelCase split works piece by piece when the pieces do not meet at a
   * lowercase-uppercase pair.
   */
  lemma {:induction false} SplitCamelAppend(u: string, v: string)
    requires !(u != [] && v != [] && IsAsciiLower(u[|u| - 1]) && IsAsciiUpper(v[0]))
    ensures SplitCamel(u + v) == SplitCamel(u) + SplitCamel(v)
    decreases |u|, 1
  {
    var w := u + v;
    if u == [] {
      assert w == v;
    } else if |u| >= 2 && IsAsciiLower(u[0]) && IsAsciiUpper(u[1]) {
      SplitCamelAppendAtPair(u, v);
    } else if |u| == 1 {
      assert w == [u[0]] + v && w[1..] == v;
      assert v != [] ==> w[1] == v[0];
      SplitCamelElsewhere(w);
      assert SplitCamel(u) == [u[0]];
    } else {
      SplitCamelAppendElsewhere(u, v);
    }
  }

  lemma {:induction false} SplitCamelAppendAtPair(u: string, v: string)
    requires |u| >= 2 && IsAsciiLower(u[0]) && IsAsciiUpper(u[1])
    requires !(v != [] && IsAsciiLower(u[|u| - 1]) && IsAsciiUpper(v[0]))
    ensures SplitCamel(u + v) == SplitCamel(u) + SplitCamel(v)
    decreases |u|, 0
  {
    var w := u + v;
    assert w[0] == u[0] && w[1] == u[1] && w[2..] == u[2..] + v;
    SplitCamelAtPair(w);
    SplitCamelAtPair(u);
    assert u[2..] != [] ==> u[2..][|u[2..]| - 1] == u[|u| - 1];
    SplitCamelAppend(u[2..], v);
  }

  lemma {:induction false} SplitCamelAppendElsewhere(u: string, v: string)
    requires |u| >= 2 && !(IsAsciiLower(u[0]) && IsAsciiUpper(u[1]))
    requires !(v != [] && IsAsciiLower(u[|u| - 1]) && IsAsciiUpper(v[0]))
    ensures SplitCamel(u + v) == SplitCamel(u) + SplitCamel(v)
    decreases |u|, 0
  {
    var tail := u[1..];
    assert tail[|tail| - 1] == u[|u| - 1];
    SplitCamelAppend(tail, v);
    var w := u + v;
    assert w[0] == u[0] && w[1] == u[1];
    assert w[1..] == tail + v;
    SplitCamelElsewhere(w);
    SplitCamelElsewhere(u);
    var x, y := SplitCamel(tail + v), SplitCamel(tail);
    assert [u[0]] + x == [u[0]] + y + SplitCamel(v);
  }

  /** A label contains no '_' and no '-' (that it is trimmed is the contract of Trim). */
  lemma LabelShape(fieldName: string)
    ensures NoSeparators(FormatFieldLabel(fieldName))
  {
    LabelPipelineUniform(fieldName);
    var formatted := Separated(fieldName);
    SeparatedHasNoSeparators(fieldName);
    var split := SplitCamel(formatted);
    SplitCamelChars(formatted);
    assert NoSeparators(split) by {
      forall i | 0 <= i < |split| ensures split[i] != '_' && split[i] != '-' {
        assert split[i] in formatted || split[i] == ' ';
      }
    }
    var titled := TitleCase(split);
    TitleCaseKeepsNoSeparators(split);
    var shown := Trim(titled);
    assert shown == FormatFieldLabel(fieldName);
    TrimChars(titled);
    forall i | 0 <= i < |shown| ensures shown[i] != '_' && shown[i] != '-' {
      assert shown[i] in titled;
    }
  }

  /** A label neither starts nor ends with whitespace. */
  lemma LabelTrimmed(fieldName: string)
    ensures var shown := FormatFieldLabel(fieldName);
      shown == [] || (!IsWhitespace(shown[0]) && !IsWhitespace(shown[|shown| - 1]))
  {
    TrimmedEnds(Untrimmed(fieldName), FormatFieldLabel(fieldName));
  }

  lemma TrimmedEnds(s: string, r: string)
    requires r == Trim(s)
    ensures r == [] || (!IsWhitespace(r[0]) && !IsWhitespace(r[|r| - 1]))
  {
  }

  // The examples of the label formatter's documentation, one step per lemma.

  /** Trimming a string that starts and ends with a non-whitespace character changes nothing. */
  lemma TrimOfTrimmed(s: string)
    requires s != [] && !IsWhitespace(s[0]) && !IsWhitespace(s[|s| - 1])
    ensures Trim(s) == s
  {
    assert TrimStart(s) == s;
    assert TrimEnd(s) == s;
  }

  lemma SeparatedIdentity(s: string)
    requires NoSeparators(s)
    ensures Separated(s) == s
  {
    assert ReplaceAll(s, '_', ' ') == s;
  }

  lemma NotAllCaps(s: string, i: int)
    requires 0 <= i < |s| && IsAsciiLower(s[i])
    ensures !IsAllCaps(s)
  {
    assert ToUpper(s)[i] != s[i];
  }

  lemma AllCaps(s: string)
    requires s != [] && IsAsciiUpper(s[0])
    requires forall i :: 0 <= i < |s| ==> !IsAsciiLower(s[i])
    ensures IsAllCaps(s)
  {
    assert ToUpper(s) == s;
  }

  lemma SplitCamelWithoutUpper(s: string)
    requires forall i :: 0 <= i < |s| ==> !IsAsciiUpper(s[i])
    ensures SplitCamel(s) == s
  {
    SplitCamelWithoutBoundary(s);
  }

  /** Title case works word by word across a space. */
  lemma TitleCaseAtSpace(a: string, b: string)
    ensures TitleCase(a + " " + b) == TitleCase(a) + " " + TitleCase(b)
  {
    var s := a + " " + b;
    TitleCaseByCharacter(s);
    TitleCaseByCharacter(a);
    TitleCaseByCharacter(b);
    var rhs := TitleCase(a) + " " + TitleCase(b);
    assert |TitleCase(s)| == |rhs|;
    forall i | 0 <= i < |s| ensures TitleCase(s)[i] == rhs[i] {
      var wordStart := i == 0 || s[i - 1] == ' ';
      assert TitleCase(s)[i] == if wordStart then UpperChar(s[i]) else LowerChar(s[i]);
      if i < |a| {
        assert s[i] == a[i] && rhs[i] == TitleCase(a)[i];
        if i > 0 { assert s[i - 1] == a[i - 1]; }
      } else if i == |a| {
        assert s[i] == ' ' && rhs[i] == ' ';
      } else {
        var j := i - |a| - 1;
        assert s[i] == b[j] && rhs[i] == TitleCase(b)[j];
        if j > 0 { assert s[i - 1] == b[j - 1]; } else { assert s[i - 1] == ' '; }
      }
    }
  }

  /** A single word with no uppercase letter after its first is capitalized. */
  lemma TitleCaseOfWord(w: string)
    requires w != [] && ' ' !in w
    requires forall i :: 1 <= i < |w| ==> !IsAsciiUpper(w[i])
    ensures TitleCase(w) == [UpperChar(w[0])] + w[1..]
  {
    TitleCaseByCharacter(w);
    forall i | 1 <= i < |w| ensures TitleCase(w)[i] == w[i] {
      assert w[i - 1] in w;
    }
  }

  lemma TitleCaseBranch()
    ensures TitleCase("BRANCH") == "Branch"
  {
    TitleCaseByCharacter("BRANCH");
  }

  /** An all-caps name is title-cased: "BRANCH" becomes "Branch". */
  lemma BranchExample()
    ensures FormatFieldLabel("BRANCH") == "Branch"
  {
    SeparatedIdentity("BRANCH");
    AllCaps("BRANCH");
    TitleCaseBranch();
    TrimOfTrimmed("Branch");
  }

  lemma TitleCaseSource()
    ensures TitleCase("SOURCE") == "Source"
  {
    TitleCaseByCharacter("SOURCE");
  }

  /** "SOURCE" becomes "Source", not "S O U R C E". */
  lemma SourceExample()
    ensures FormatFieldLabel("SOURCE") == "Source"
  {
    SeparatedIdentity("SOURCE");
    AllCaps("SOURCE");
    TitleCaseSource();
    TrimOfTrimmed("Source");
  }

  lemma SplitCamelPieces(u: string, v: string, su: string, sv: string)
    requires SplitCamel(u) == su && SplitCamel(v) == sv
    requires !(u != [] && v != [] && IsAsciiLower(u[|u| - 1]) && IsAsciiUpper(v[0]))
    ensures SplitCamel(u + v) == su + sv
  {
    SplitCamelAppend(u, v);
  }

  lemma PiecesCustomerI()
    ensures "custome" + "rI" == "customerI" && "custome" + "r I" == "customer I"
  {
  }

  lemma SplitCamelCustomerI(s: string)
    requires s == "customerI"
    ensures SplitCamel(s) == "customer I"
  {
    var a, b := "custome", "rI";
    SplitCamelWithoutUpper(a);
    SplitCamelAtPair(b);
    SplitCamelAppend(a, b);
    PiecesCustomerI();
  }

  lemma PiecesCustomerId()
    ensures "customerI" + "d" == "customerId" && "customer I" + "d" == "customer Id"
  {
  }

  lemma SplitCamelCustomerId(s: string)
    requires s == "customerId"
    ensures SplitCamel(s) == "customer Id"
  {
    var a, b := "customerI", "d";
    SplitCamelCustomerI(a);
    SplitCamelWithoutUpper(b);
    SplitCamelPieces(a, b, "customer I", "d");
    PiecesCustomerId();
  }

  lemma TitleCaseCustomer(w: string)
    requires w == "customer"
    ensures TitleCase(w) == "Customer"
  {
    TitleCaseOfWord(w);
  }

  lemma TitleCaseId(w: string)
    requires w == "Id"
    ensures TitleCase(w) == "Id"
  {
    TitleCaseOfWord(w);
  }

  lemma WordsCustomerId()
    ensures "customer" + " " + "Id" == "customer Id"
    ensures "Customer" + " " + "Id" == "Customer Id"
  {
  }

  lemma TitleCaseCustomerId(s: string)
    requires s == "customer Id"
    ensures TitleCase(s) == "Customer Id"
  {
    var a, b := "customer", "Id";
    TitleCaseCustomer(a);
    TitleCaseId(b);
    TitleCaseAtSpace(a, b);
    WordsCustomerId();
  }

  lemma CustomerIdIsCamel(name: string)
    requires name == "customerId"
    ensures Separated(name) == name && !IsAllCaps(name)
  {
    SeparatedIdentity(name);
    NotAllCaps(name, 0);
  }

  lemma TrimCustomerId(s: string)
    requires s == "Customer Id"
    ensures Trim(s) == s
  {
    TrimOfTrimmed(s);
  }

  /** A camelCase name is split at its hump: "customerId" becomes "Customer Id". */
  lemma CustomerIdExample(name: string)
    requires name == "customerId"
    ensures FormatFieldLabel(name) == "Customer Id"
  {
    CustomerIdIsCamel(name);
    SplitCamelCustomerId(name);
    TitleCaseCustomerId(SplitCamel(name));
    TrimCustomerId(TitleCase(SplitCamel(name)));
  }

  lemma PiecesAccountC()
    ensures "Accoun" + "tC" == "AccountC" && "Accoun" + "t C" == "Account C"
  {
  }

  lemma SplitCamelAccountC(s: string)
    requires s == "AccountC"
    ensures SplitCamel(s) == "Account C"
  {
    var a, b := "Accoun", "tC";
    SplitCamelWithoutBoundary(a);
    SplitCamelAtPair(b);
    SplitCamelPieces(a, b, a, "t C");
    PiecesAccountC();
  }

  lemma PiecesAccountClass()
    ensures "AccountC" + "lass" == "AccountClass" && "Account C" + "lass" == "Account Class"
  {
  }

  lemma SplitCamelLass(s: string)
    requires s == "lass"
    ensures SplitCamel(s) == s
  {
    SplitCamelWithoutUpper(s);
  }

  lemma SplitCamelAccountClass(s: string)
    requires s == "AccountClass"
    ensures SplitCamel(s) == "Account Class"
  {
    var a, b := "AccountC", "lass";
    SplitCamelAccountC(a);
    SplitCamelLass(b);
    SplitCamelPieces(a, b, "Account C", b);
    PiecesAccountClass();
  }

  lemma TitleCaseAccount(w: string)
    requires w == "Account" || w == "account"
    ensures TitleCase(w) == "Account"
  {
    TitleCaseOfWord(w);
  }

  lemma TitleCaseClass(w: string)
    requires w == "Class"
    ensures TitleCase(w) == "Class"
  {
    TitleCaseOfWord(w);
  }

  lemma WordsAccountClass()
    ensures "Account" + " " + "Class" == "Account Class"
  {
  }

  lemma TitleCaseAccountClass(s: string)
    requires s == "Account Class"
    ensures TitleCase(s) == "Account Class"
  {
    var a, b := "Account", "Class";
    TitleCaseAccount(a);
    TitleCaseClass(b);
    TitleCaseAtSpace(a, b);
    WordsAccountClass();
  }

  lemma AccountClassIsCamel(name: string)
    requires name == "AccountClass"
    ensures Separated(name) == name && !IsAllCaps(name)
  {
    SeparatedIdentity(name);
    NotAllCaps(name, 1);
  }

  lemma TrimAccountClass(s: string)
    requires s == "Account Class"
    ensures Trim(s) == s
  {
    TrimOfTrimmed(s);
  }

  /** A PascalCase name is split too: "AccountClass" becomes "Account Class". */
  lemma AccountClassExample(name: string)
    requires name == "AccountClass"
    ensures FormatFieldLabel(name) == "Account Class"
  {
    AccountClassIsCamel(name);
    SplitCamelAccountClass(name);
    TitleCaseAccountClass(SplitCamel(name));
    TrimAccountClass(TitleCase(SplitCamel(name)));
  }

  lemma SeparatedAccountNumber(name: string)
    requires name == "account_number"
    ensures Separated(name) == "account number"
  {
  }

  lemma AccountNumberIsSnake(name: string)
    requires name == "account_number"
    ensures !IsAllCaps(Separated(name)) && SplitCamel(Separated(name)) == "account number"
  {
    var spaced := "account number";
    SeparatedAccountNumber(name);
    NotAllCaps(spaced, 0);
    SplitCamelWithoutUpper(spaced);
  }

  lemma TrimAccountNumber(s: string)
    requires s == "Account Number"
    ensures Trim(s) == s
  {
    TrimOfTrimmed(s);
  }

  lemma TitleCaseNumber(w: string)
    requires w == "number"
    ensures TitleCase(w) == "Number"
  {
    TitleCaseOfWord(w);
  }

  lemma WordsAccountNumber()
    ensures "account" + " " + "number" == "account number"
    ensures "Account" + " " + "Number" == "Account Number"
  {
  }

  lemma TitleCaseAccountNumber(s: string)
    requires s == "account number"
    ensures TitleCase(s) == "Account Number"
  {
    var a, b := "account", "number";
    TitleCaseAccount(a);
    TitleCaseNumber(b);
    TitleCaseAtSpace(a, b);
    WordsAccountNumber();
  }

  /** Underscores separate words: "account_number" becomes "Account Number". */
  lemma AccountNumberExample(name: string)
    requires name == "account_number"
    ensures FormatFieldLabel(name) == "Account Number"
  {
    AccountNumberIsSnake(name);
    TitleCaseAccountNumber(SplitCamel(Separated(name)));
    TrimAccountNumber(TitleCase(SplitCamel(Separated(name))));
  }

  // ---------------------------------------------------------------------------
  // validateForm

  /**
   * The names every plain object inherits from `Object.prototype`. Reading one of them
   * from an object that does not hold it itself yields a function (for `__proto__`, the
   * prototype object), which is truthy.
   */
  const InheritedNames: set<string> := {
    "constructor", "hasOwnProperty", "isPrototypeOf", "propertyIsEnumerable", "toLocaleString",
    "toString", "valueOf", "__proto__", "__defineGetter__", "__defineSetter__",
    "__lookupGetter__", "__lookupSetter__"
  }

  /** The one key under which assigning a string to a plain object stores nothing. */
  const ProtoKey := "__proto__"

  /**
   * `!formData[name]`: a falsy value ('', 0, false) held under `name`, or no value at
   * all unless `name` is inherited from `Object.prototype`.
   */
  predicate IsMissing(formData: map<string, Scalar>, name: string) {
    if name in formData then formData[name] in {Str(""), Num(0.0), Bool(false)} else name !in InheritedNames
  }

  /** The message validateForm records for a missing required field. */
  function RequiredMessage(name: string): string {
    FormatFieldLabel(name) + " is required"
  }

  /**
   * The errors validateForm records for `fields`, visiting them in order; the assignment
   * under `__proto__` stores nothing.
   */
  function RequiredErrors(fields: seq<FieldDefinition>, formData: map<string, Scalar>): map<string, string>
    decreases |fields|
  {
    if fields == [] then map[]
    else
      var errors := RequiredErrors(fields[..|fields| - 1], formData);
      var f := fields[|fields| - 1];
      if f.required && IsMissing(formData, f.name) && f.name != ProtoKey then errors[f.name := RequiredMessage(f.name)]
      else errors
  }

  /**
   * An error is recorded exactly under the name, other than `__proto__`, of a required
   * field whose value is missing or falsy, and it reads "<label> is required".
   */
  lemma RequiredErrorsExactly(fields: seq<FieldDefinition>, formData: map<string, Scalar>)
    ensures forall name :: name in RequiredErrors(fields, formData) <==>
      name != ProtoKey && IsMissing(formData, name) && exists i :: 0 <= i < |fields| && fields[i].name == name && fields[i].required
    ensures forall name :: name in RequiredErrors(fields, formData) ==>
      RequiredErrors(fields, formData)[name] == RequiredMessage(name)
  {
    forall name
      ensures name in RequiredErrors(fields, formData) <==>
        name != ProtoKey && IsMissing(formData, name) && exists i :: 0 <= i < |fields| && fields[i].name == name && fields[i].required
      ensures name in RequiredErrors(fields, formData) ==> RequiredErrors(fields, formData)[name] == RequiredMessage(name)
    {
      RequiredErrorsAt(fields, formData, name);
    }
  }

  /** Some field of `fields` named `name` is required. */
  predicate HasRequired(fields: seq<FieldDefinition>, name: string) {
    exists i :: 0 <= i < |fields| && fields[i].name == name && fields[i].required
  }

  lemma HasRequiredLast(fields: seq<FieldDefinition>, name: string)
    requires fields != []
    ensures HasRequired(fields, name) <==>
      HasRequired(fields[..|fields| - 1], name) || (fields[|fields| - 1].name == name && fields[|fields| - 1].required)
  {
    var init := fields[..|fields| - 1];
    if HasRequired(fields, name) {
      var i :| 0 <= i < |fields| && fields[i].name == name && fields[i].required;
      if i < |init| {
        assert init[i] == fields[i];
      }
    }
    if HasRequired(init, name) {
      var i :| 0 <= i < |init| && init[i].name == name && init[i].required;
      assert fields[i] == init[i];
    }
  }

  /** The same, for one name. */
  lemma {:induction false} RequiredErrorsAt(fields: seq<FieldDefinition>, formData: map<string, Scalar>, name: string)
    ensures name in RequiredErrors(fields, formData) <==>
      name != ProtoKey && IsMissing(formData, name) && HasRequired(fields, name)
    ensures name in RequiredErrors(fields, formData) ==> RequiredErrors(fields, formData)[name] == RequiredMessage(name)
    decreases |fields|
  {
    if fields != [] {
      var init := fields[..|fields| - 1];
      var f := fields[|fields| - 1];
      RequiredErrorsAt(init, formData, name);
      var recorded := f.required && IsMissing(formData, f.name) && f.name != ProtoKey;
      MapStep(RequiredErrors(init, formData), RequiredErrors(fields, formData), recorded, f.name, RequiredMessage(f.name), name);
      HasRequiredLast(fields, name);
    }
  }

  /** One optional assignment `e1 = rec ? e0[key := value] : e0`, seen from one name. */
  lemma MapStep(e0: map<string, string>, e1: map<string, string>, rec: bool, key: string, value: string, name: string)
    requires e1 == if rec then e0[key := value] else e0
    ensures name in e1 <==> name in e0 || (rec && name == key)
    ensures rec && name == key ==> e1[name] == value
    ensures name in e0 && !(rec && name == key) ==> e1[name] == e0[name]
  {
  }

  /** The form is valid iff every required field other than `__proto__` reads as a truthy value. */
  lemma ValidIffRequiredFilled(fields: seq<FieldDefinition>, formData: map<string, Scalar>)
    ensures RequiredErrors(fields, formData) == map[] <==>
      forall i :: 0 <= i < |fields| && fields[i].required && fields[i].name != ProtoKey ==> !IsMissing(formData, fields[i].name)
  {
    RequiredErrorsExactly(fields, formData);
    if RequiredErrors(fields, formData) != map[] {
      var name :| name in RequiredErrors(fields, formData);
    }
  }

  // ---------------------------------------------------------------------------
  // The component's state

  /**
   * The state of one rendered form: the values entered, the errors shown and the
   * data last submitted (`None` for null).
   */
  class FormState {
    const schema: ServiceSchema
    var formData: map<string, Scalar>
    var errors: map<string, string>
    var submittedData: Option<map<string, Scalar>>

    constructor (schema: ServiceSchema)
      ensures this.schema == schema
      ensures formData == map[] && errors == map[] && submittedData == None
    {
      this.schema := schema;
      formData := map[];
      errors := map[];
      submittedData := None;
    }

    /** handleChange: set one value and clear that field's error, if one is shown. */
    method HandleChange(name: string, value: Scalar)
      modifies this
      ensures formData == old(formData)[name := value]
      ensures errors == if name in old(errors) && old(errors)[name] != "" then old(errors) - {name} else old(errors)
      ensures submittedData == old(submittedData)
    {
      formData := formData[name := value];
      if name in errors && errors[name] != "" {
        errors := errors - {name};
      }
    }

    /**
     * validateForm: record an error for every required field whose value is falsy,
     * replacing the errors shown; valid iff none was recorded.
     */
    method ValidateForm() returns (valid: bool)
      modifies this
      ensures errors == RequiredErrors(schema.fields, formData)
      ensures valid <==> errors == map[]
      ensures formData == old(formData) && submittedData == old(submittedData)
    {
      var newErrors: map<string, string> := map[];
      var i := 0;
      while i < |schema.fields|
        invariant 0 <= i <= |schema.fields|
        invariant newErrors == RequiredErrors(schema.fields[..i], formData)
      {
        var field := schema.fields[i];
        assert schema.fields[..i + 1][..i] == schema.fields[..i];
        if field.required && IsMissing(formData, field.name) && field.name != ProtoKey {
          newErrors := newErrors[field.name := RequiredMessage(field.name)];
        }
        i := i + 1;
      }
      assert schema.fields[..i] == schema.fields;
      errors := newErrors;
      valid := |newErrors.Keys| == 0;
      if !valid {
        assert newErrors.Keys != {};
      }
    }

    /** handleSubmit: when the form is valid, the entered values become the submitted data. */
    method HandleSubmit()
      modifies this
      ensures errors == RequiredErrors(schema.fields, formData)
      ensures formData == old(formData)
      ensures submittedData == if errors == map[] then Some(formData) else old(submittedData)
    {
      var valid := ValidateForm();
      if valid {
        submittedData := Some(formData);
      }
    }

    /** handleReset: no values, no submitted data, no errors. */
    method HandleReset()
      modifies this
      ensures formData == map[] && submittedData == None && errors == map[]
    {
      formData := map[];
      submittedData := None;
      errors := map[];
    }
  }
}
