/** A contract's heading against the expression it is written as: two hashes at the start of a line, white
    space as long as possible, a name as short as possible without a line feed, white space again as long
    as possible, and the end of the line. */
module Headings {
  import opened Sequences
  import opened Wrappers
  import opened Text
  import opened Instructions
  import opened Contract

  ghost predicate Spaces(s: string, from: int, to: int) {
    0 <= from <= to <= |s| && forall k :: from <= k < to ==> IsSpace(s[k])
  }

  /** `w` characters of white space, a name of `n`, `z` of white space again, at the end of a line. */
  ghost predicate Fits(s: string, w: int, n: int, z: int) {
    && 1 <= w && 1 <= n && 0 <= z && 2 + w + n + z <= |s|
    && s[0] == '#' && s[1] == '#'
    && Spaces(s, 2, 2 + w) && (forall k :: 2 + w <= k < 2 + w + n ==> s[k] != '\n')
    && Spaces(s, 2 + w + n, 2 + w + n + z)
    && (2 + w + n + z == |s| || s[2 + w + n + z] == '\n')
  }

  /** The order in which a backtracking matcher tries them: `\s+` greedy, the name lazy, `\s*` greedy. */
  predicate NoLater(w: int, n: int, z: int, w': int, n': int, z': int) {
    w > w' || (w == w' && (n < n' || (n == n' && z >= z')))
  }

  lemma {:induction false} SpaceCountFacts(s: string)
    ensures var c := SpaceCount(s); Spaces(s, 0, c) && (c < |s| ==> !IsSpace(s[c]))
  {
    if s != [] && IsSpace(s[0]) {
      SpaceCountFacts(s[1..]);
    }
  }

  ghost predicate EndsLine(s: string, z: int) {
    Spaces(s, 0, z) && (z == |s| || s[z] == '\n')
  }

  lemma {:induction false} LastNewlineFacts(s: string)
    ensures LastNewline(s).Some? ==> forall k :: LastNewline(s).value < k < |s| ==> s[k] != '\n'
  {
    if s != [] && s[|s| - 1] != '\n' {
      LastNewlineFacts(s[..|s| - 1]);
    }
  }

  /** The white space up to the end of a line, as far on as it can be. */
  lemma LineEndFacts(s: string)
    ensures LineEnd(s).Some? ==> EndsLine(s, LineEnd(s).value) && forall z :: EndsLine(s, z) ==> z <= LineEnd(s).value
    ensures LineEnd(s).None? ==> forall z :: !EndsLine(s, z)
  {
    var w := SpaceCount(s);
    SpaceCountFacts(s);
    LastNewlineFacts(s[..w]);
    forall z | EndsLine(s, z) ensures LineEnd(s).Some? && z <= LineEnd(s).value {
      if w < |s| {
        assert z <= w && z < |s| && s[z] == '\n' && IsSpace(s[z]);
        assert s[..w][z] == '\n';
      }
    }
  }

  /** The shortest name: nothing shorter is followed by the end of a line, so it holds no line feed. */
  lemma {:induction false} NameLengthFacts(t: string)
    ensures forall k :: 0 <= k < NameLength(t) ==> t[k] != '\n' && LineEnd(t[k..]).None?
  {
    assert t[0..] == t;
    if LineEnd(t).None? {
      NameLengthFacts(t[1..]);
      LineEndFacts(t);
      assert !EndsLine(t, 0);
      forall k | 0 < k < NameLength(t) ensures t[k] != '\n' && LineEnd(t[k..]).None? {
        assert t[k..] == t[1..][k - 1..];
      }
    }
  }

  ghost predicate StartsName(rest: string, k: int) {
    1 <= k < |rest| && Spaces(rest, 0, k) && rest[k] != '\n'
  }

  lemma {:induction false} LastNameCharacterFacts(s: string)
    ensures LastNameCharacter(s).Some? ==> s[LastNameCharacter(s).value] != '\n'
    ensures forall k :: (if LastNameCharacter(s).Some? then LastNameCharacter(s).value else 0) < k < |s| ==> s[k] == '\n'
  {
    if |s| >= 2 && s[|s| - 1] == '\n' {
      LastNameCharacterFacts(s[..|s| - 1]);
    }
  }

  lemma NameStartFacts(rest: string)
    ensures NameStart(rest).Some? ==>
              StartsName(rest, NameStart(rest).value) && forall k :: StartsName(rest, k) ==> k <= NameStart(rest).value
    ensures NameStart(rest).None? ==> forall k :: !StartsName(rest, k)
  {
    SpaceCountFacts(rest);
    LastNameCharacterFacts(rest);
  }

  /** After a name of `n` characters, `z` of white space end the line. */
  ghost predicate NameOf(t: string, n: int, z: int) {
    1 <= n <= |t| && EndsLine(t[1..][n - 1..], z)
  }

  lemma FitIsAName(s: string, w: int, n: int, z: int)
    requires Fits(s, w, n, z)
    ensures StartsWithHashes(s) && StartsName(s[2..], w)
    ensures NameOf(s[2 + w..], n, z)
  {
    assert s[2..][w] == s[2 + w];
    forall k | 0 <= k < w ensures IsSpace(s[2..][k]) {
      assert s[2..][k] == s[2 + k];
    }
    var u := s[2 + w..][1..][n - 1..];
    assert u == s[2 + w + n..];
  }

  lemma FoundFits(s: string, w: int, n: int, z: int)
    requires StartsWithHashes(s) && NameStart(s[2..]) == Some(w)
    requires n == 1 + NameLength(s[2 + w..][1..]) && LineEnd(s[2 + w..][n..]) == Some(z)
    ensures Fits(s, w, n, z)
  {
    var t := s[2 + w..];
    NameStartFacts(s[2..]);
    NameLengthFacts(t[1..]);
    LineEndFacts(t[n..]);
    assert t[n..] == s[2 + w + n..];
    forall k | 2 <= k < 2 + w ensures IsSpace(s[k]) {
      assert s[2..][k - 2] == s[k];
    }
    forall k | 2 + w <= k < 2 + w + n ensures s[k] != '\n' {
      if k == 2 + w {
        assert s[2..][w] == s[k];
      } else {
        assert t[1..][k - 3 - w] == s[k];
      }
    }
    forall k | 2 + w + n <= k < 2 + w + n + z ensures IsSpace(s[k]) {
      assert t[n..][k - 2 - w - n] == s[k];
    }
  }

  lemma NameIsShortest(t: string, n': int, z': int)
    requires NameOf(t, n', z')
    ensures 1 + NameLength(t[1..]) <= n'
    ensures n' == 1 + NameLength(t[1..]) && LineEnd(t[n'..]).Some? ==> z' <= LineEnd(t[n'..]).value
  {
    NameLengthFacts(t[1..]);
    LineEndFacts(t[1..][n' - 1..]);
    assert t[1..][n' - 1..] == t[n'..];
  }

  /** No name starts further on, none that starts here is shorter, and after this one no more white
      space can be taken. */
  ghost predicate Foremost(rest: string, t: string, w: int, n: int, z: int) {
    && (forall k :: StartsName(rest, k) ==> k <= w)
    && t != []
    && forall n', z' :: NameOf(t, n', z') ==> n <= n' && (n == n' ==> z' <= z)
  }

  lemma FoundIsForemost(rest: string, w: nat, t: string)
    requires NameStart(rest) == Some(w) && t == rest[w..]
    ensures var n := 1 + NameLength(t[1..]);
            LineEnd(t[n..]).Some? ==> Foremost(rest, t, w, n, LineEnd(t[n..]).value)
  {
    NameStartFacts(rest);
    var n := 1 + NameLength(t[1..]);
    if LineEnd(t[n..]).Some? {
      forall n', z' | NameOf(t, n', z')
        ensures n <= n' && (n == n' ==> z' <= LineEnd(t[n..]).value)
      {
        NameIsShortest(t, n', z');
      }
    }
  }

  /** Every other match comes later. */
  lemma FirstOfAll(s: string, t: string, w: int, n: int, z: int, w': int, n': int, z': int)
    requires 0 <= w && 2 + w <= |s| && t == s[2 + w..] && Foremost(s[2..], t, w, n, z)
    requires Fits(s, w', n', z')
    ensures NoLater(w, n, z, w', n', z')
  {
    FitIsAName(s, w', n', z');
  }

  lemma NoHeadingNoFit(s: string)
    requires !StartsWithHashes(s) || NameStart(s[2..]).None?
    ensures forall w, n, z :: !Fits(s, w, n, z)
  {
    forall w, n, z ensures !Fits(s, w, n, z) {
      if Fits(s, w, n, z) {
        FitIsAName(s, w, n, z);
        NameStartFacts(s[2..]);
      }
    }
  }

  lemma HeadingStarts(s: string)
    ensures Heading(s).None? <==> !StartsWithHashes(s) || NameStart(s[2..]).None?
  {
  }

  lemma {:induction false} FoundParts(t: string, w: nat, n: nat)
    requires t != [] && n == 1 + NameLength(t[1..])
    ensures n <= |t| && LineEnd(t[n..]).Some?
    ensures Found(t, w) == Match(t[..n], 2 + w + n + LineEnd(t[n..]).value)
  {
    assert t[1..][n - 1..] == t[n..];
  }

  lemma {:induction false} HeadingIsNamed(s: string, start: Option<nat>)
    requires StartsWithHashes(s) && start == NameStart(s[2..])
    ensures Heading(s) == NamedFrom(s, start)
  {
  }

  lemma {:induction false} NameIsFound(s: string, w: nat, t: string)
    requires 2 + w < |s| && t == s[2 + w..]
    ensures NamedFrom(s, Some(w)) == Some(Found(t, w))
  {
  }

  ghost predicate IsFirst(s: string, m: Match, w: int, n: int, z: int) {
    && Fits(s, w, n, z) && m == Match(s[2 + w..2 + w + n], 2 + w + n + z)
    && forall w', n', z' :: Fits(s, w', n', z') ==> NoLater(w, n, z, w', n', z')
  }

  lemma FoundIsFirst(s: string, t: string, w: int, n: int, z: int)
    requires Fits(s, w, n, z) && t == s[2 + w..] && Foremost(s[2..], t, w, n, z)
    ensures IsFirst(s, Match(t[..n], 2 + w + n + z), w, n, z)
  {
    assert t[..n] == s[2 + w..2 + w + n];
    forall w', n', z' | Fits(s, w', n', z') ensures NoLater(w, n, z, w', n', z') {
      FirstOfAll(s, t, w, n, z, w', n', z');
    }
  }

  lemma FoundInParts(s: string, w: nat, t: string, n: nat, z: nat)
    requires StartsWithHashes(s) && NameStart(s[2..]) == Some(w) && t == s[2 + w..]
    requires n == 1 + NameLength(t[1..]) && n <= |t| && LineEnd(t[n..]) == Some(z)
    ensures IsFirst(s, Match(t[..n], 2 + w + n + z), w, n, z)
  {
    FoundFits(s, w, n, z);
    assert t == s[2..][w..];
    FoundIsForemost(s[2..], w, t);
    FoundIsFirst(s, t, w, n, z);
  }

  lemma HeadingFits(s: string, w: nat, t: string)
    requires StartsWithHashes(s) && NameStart(s[2..]) == Some(w) && t == s[2 + w..]
    ensures Heading(s).Some? && exists w', n, z :: IsFirst(s, Heading(s).value, w', n, z)
  {
    var n := 1 + NameLength(t[1..]);
    FoundParts(t, w, n);
    HeadingIsNamed(s, Some(w));
    NameIsFound(s, w, t);
    FoundInParts(s, w, t, n, LineEnd(t[n..]).value);
  }

  /** What `Heading` returns is the match that a backtracking matcher finds first; it returns none only
      when there is none. */
  lemma HeadingIsTheFirstMatch(s: string)
    ensures Heading(s).None? ==> forall w, n, z :: !Fits(s, w, n, z)
    ensures Heading(s).Some? ==> exists w, n, z :: IsFirst(s, Heading(s).value, w, n, z)
  {
    HeadingStarts(s);
    if Heading(s).None? {
      NoHeadingNoFit(s);
    } else {
      var w := NameStart(s[2..]).value;
      HeadingFits(s, w, s[2 + w..]);
    }
  }

  // ----- A recommendation is a contract of one section

  const INTRO_A := "Update the prompt with the complete PDD \""
  const INTRO_B := "\" contract section:"

  lemma Words()
    ensures '\n' !in INTRO_A && '\n' !in INTRO_B && INTRO_A != [] && INTRO_A[0] == 'U'
  {
    assert forall k :: 0 <= k < |INTRO_A| ==> INTRO_A[k] != '\n';
    assert forall k :: 0 <= k < |INTRO_B| ==> INTRO_B[k] != '\n';
  }

  function Intro(a: string, name: string, b: string): string { a + name + b + ['\n', '\n'] }

  lemma IntroIsPlain(a: string, name: string, b: string)
    requires '\n' !in a && '\n' !in name && '\n' !in b && a != [] && a[0] != '#'
    ensures var t := Intro(a, name, b); NoHashLine(t, true) && t[|t| - 1] == '\n'
  {
    var t := Intro(a, name, b);
    var line := a + name + b;
    assert forall j :: 0 <= j < |line| ==> t[j] == line[j] && line[j] in line;
    forall i | 0 <= i < |t| && (if i == 0 then true else t[i - 1] == '\n') ensures !StartsWithHashes(t[i..]) {
      if i == 0 {
        assert t[0] == a[0];
      }
    }
  }

  lemma TextOfRecommendation(name: string, body: string)
    ensures Recommendation(name, body) == INTRO_A + name + INTRO_B + "\n\n## " + name + "\n" + body
  {
    assert "\" contract section:\n\n## " == INTRO_B + "\n\n## ";
    Assoc(INTRO_A + name, INTRO_B, "\n\n## ");
  }

  lemma IntroThenSection(a: string, name: string, b: string, body: string)
    ensures a + name + b + "\n\n## " + name + "\n" + body
         == Intro(a, name, b) + Printed([Section(name, body)])
  {
    var s := Section(name, body);
    assert [s][1..] == [];
    NilUnit(HeadingText(name) + Between(s, true));
    NilUnit(['\n'] + body);
    assert "\n\n## " == ['\n', '\n'] + ['#', '#', ' '];
    Assoc(a + name + b, ['\n', '\n'], ['#', '#', ' ']);
    Assoc(Intro(a, name, b), ['#', '#', ' '], name);
    Assoc(Intro(a, name, b), HeadingText(name), ['\n']);
    Assoc(Intro(a, name, b) + HeadingText(name), ['\n'], body);
    Assoc(Intro(a, name, b), HeadingText(name), ['\n'] + body);
    assert "\n" == ['\n'];
  }

  /** What is recommended for a section is a text that, read as a contract, recommends just that again. */
  lemma RecommendationsReadBack(name: string, body: string)
    requires GoodSection(Section(name, body)) && |Recommendation(name, body)| <= 16_000
    ensures Recommendations([name], Recommendation(name, body)) == Ok([Recommendation(name, body)])
  {
    Words();
    TextOfRecommendation(name, body);
    IntroThenSection(INTRO_A, name, INTRO_B, body);
    IntroIsPlain(INTRO_A, name, INTRO_B);
    OneSectionExpected(name, body);
    PrintedContractsParseBack([name], Intro(INTRO_A, name, INTRO_B), [Section(name, body)]);
  }

  lemma OneSectionExpected(name: string, body: string)
    ensures Expected([name], [Section(name, body)]) == [Recommendation(name, body)]
    ensures DistinctNames([Section(name, body)])
    ensures SomeTooLong([Recommendation(name, body)]) <==> |Recommendation(name, body)| > 16_000
  {
    assert [name][1..] == [];
    var list := [Recommendation(name, body)];
    assert list[0] == Recommendation(name, body);
  }
}
