/** Normalisation of repository-relative paths. */
module Paths {
  import opened Sequences
  import opened Wrappers
  import opened Text

  datatype PathError = NotRelative | Traverses

  const MAX_PATH_CHARACTERS: nat := 500

  function Slashed(s: string): (r: string)
    ensures |r| == |s|
  {
    if s == [] then [] else [if s[0] == '\\' then '/' else s[0]] + Slashed(s[1..])
  }

  lemma {:induction false} SlashedFacts(s: string)
    ensures '\\' !in Slashed(s)
    ensures '\\' !in s <==> Slashed(s) == s
    ensures forall k :: 0 <= k < |s| ==> Slashed(s)[k] == if s[k] == '\\' then '/' else s[k]
  {
    if s != [] {
      SlashedFacts(s[1..]);
      assert s == [s[0]] + s[1..];
    }
  }

  predicate HasDrive(s: string) {
    |s| >= 3 && IsLetter(s[0]) && s[1] == ':' && s[2] == '/'
  }

  function NonEmpty(parts: seq<string>): seq<string> {
    if parts == [] then []
    else (if parts[0] == [] then [] else [parts[0]]) + NonEmpty(parts[1..])
  }

  function DropLeadingDot(segments: seq<string>): seq<string> {
    if segments != [] && segments[0] == "." then segments[1..] else segments
  }

  function Compact(segments: seq<string>): string {
    var compact := Join(DropLeadingDot(segments), '/');
    if compact == [] then "." else compact
  }

  function SafeRelativePath(value: string): Result<string, PathError> {
    if value == [] || |value| > MAX_PATH_CHARACTERS then Err(NotRelative)
    else
      var normalized := Slashed(Trim(value));
      if normalized == [] || normalized[0] == '/' || '\0' in normalized || HasDrive(normalized) then
        Err(NotRelative)
      else
        var segments := NonEmpty(Split(normalized, '/'));
        if ".." in segments then Err(Traverses)
        else Ok(Compact(segments))
  }

  // ----- What a path means

  function NotDots(segments: seq<string>): seq<string> {
    if segments == [] then []
    else (if segments[0] == "." then [] else [segments[0]]) + NotDots(segments[1..])
  }

  /** The directories walked from the root; empty and "." segments stay where they are. */
  function Resolve(path: string): seq<string> { NotDots(NonEmpty(Split(path, '/'))) }

  lemma {:induction false} NonEmptyFacts(parts: seq<string>)
    requires FreeOf(parts, '/')
    ensures FreeOf(NonEmpty(parts), '/')
    ensures forall p :: p in NonEmpty(parts) <==> p in parts && p != []
    ensures (forall p :: p in parts ==> p != []) ==> NonEmpty(parts) == parts
  {
    if parts != [] {
      NonEmptyFacts(parts[1..]);
      assert parts == [parts[0]] + parts[1..] && parts[0] in parts;
      assert forall p :: p in parts[1..] ==> p in parts;
    }
  }

  lemma {:induction false} NonEmptyIsShorter(parts: seq<string>)
    ensures |Join(NonEmpty(parts), '/')| <= |Join(parts, '/')|
    ensures NonEmpty(parts) != [] ==> parts != []
  {
    if parts != [] {
      var rest := NonEmpty(parts[1..]);
      NonEmptyIsShorter(parts[1..]);
      if parts[0] == [] {
        assert NonEmpty(parts) == rest;
      } else {
        assert NonEmpty(parts) == [parts[0]] + rest && NonEmpty(parts)[1..] == rest;
      }
    }
  }

  lemma NonEmptyFixed(parts: seq<string>)
    requires FreeOf(parts, '/') && forall p :: p in parts ==> p != []
    ensures NonEmpty(parts) == parts
  {
    NonEmptyFacts(parts);
  }

  lemma {:induction false} JoinIsEmpty(parts: seq<string>)
    requires forall p :: p in parts ==> p != []
    ensures Join(parts, '/') == [] <==> parts == []
    ensures parts != [] ==> parts[0] != [] && Join(parts, '/')[0] == parts[0][0]
  {
    if parts != [] {
      assert parts[0] in parts;
    }
  }

  lemma {:induction false} SplitApart(a: string, b: string)
    ensures Split(a + ['/'] + b, '/') == Split(a, '/') + Split(b, '/')
  {
    var s := a + ['/'] + b;
    if a == [] {
      assert s[1..] == b;
      assert [[]] + Split(b, '/') == Split([], '/') + Split(b, '/');
    } else {
      assert s[1..] == a[1..] + ['/'] + b && s[0] == a[0];
      SplitApart(a[1..], b);
      var rest := Split(a[1..], '/');
      if a[0] == '/' {
        Assoc([[]], rest, Split(b, '/'));
      } else {
        assert (rest + Split(b, '/'))[0] == rest[0] && (rest + Split(b, '/'))[1..] == rest[1..] + Split(b, '/');
        Assoc([[a[0]] + rest[0]], rest[1..], Split(b, '/'));
      }
    }
  }

  lemma {:induction false} NonEmptyConcat(a: seq<string>, b: seq<string>)
    ensures NonEmpty(a + b) == NonEmpty(a) + NonEmpty(b) && NotDots(a + b) == NotDots(a) + NotDots(b)
  {
    if a == [] {
      NilUnit(b);
    } else {
      DropWithin(a, b, 1);
      NonEmptyConcat(a[1..], b);
      Assoc(if a[0] == [] then [] else [a[0]], NonEmpty(a[1..]), NonEmpty(b));
      Assoc(if a[0] == "." then [] else [a[0]], NotDots(a[1..]), NotDots(b));
    }
  }

  /** What resolving means: a slash walks on, a segment is one directory, nothing and "." stay. */
  lemma ResolveMeaning(a: string, b: string, segment: string)
    requires '/' !in segment
    ensures Resolve(a + ['/'] + b) == Resolve(a) + Resolve(b)
    ensures Resolve(segment) == if segment == [] || segment == "." then [] else [segment]
  {
    SplitApart(a, b);
    NonEmptyConcat(Split(a, '/'), Split(b, '/'));
    NonEmptyConcat(NonEmpty(Split(a, '/')), NonEmpty(Split(b, '/')));
    SplitWord(segment, '/');
    ResolveWord(segment);
  }

  lemma ResolveWord(segment: string)
    ensures NotDots(NonEmpty([segment])) == if segment == [] || segment == "." then [] else [segment]
  {
    assert [segment][1..] == [];
  }

  /** The segments an accepted path keeps. */
  ghost function KeptSegments(value: string): seq<string> {
    DropLeadingDot(NonEmpty(Split(Slashed(Trim(value)), '/')))
  }

  lemma CleanSegments(s: string)
    requires '\\' !in s && '\0' !in s
    ensures var segments := NonEmpty(Split(s, '/'));
            FreeOf(segments, '/') && forall p :: p in segments ==> p != [] && '\\' !in p && '\0' !in p
    ensures |Join(NonEmpty(Split(s, '/')), '/')| <= |s|
  {
    var parts := Split(s, '/');
    SplitIsFree(s, '/');
    JoinSplit(s, '/');
    NonEmptyFacts(parts);
    NonEmptyIsShorter(parts);
    forall p | p in NonEmpty(parts) ensures '\\' !in p && '\0' !in p {
      assert p in parts;
    }
  }

  lemma DroppedDot(segments: seq<string>)
    requires FreeOf(segments, '/') && forall p :: p in segments ==> p != []
    ensures var kept := DropLeadingDot(segments);
            && FreeOf(kept, '/') && (forall p :: p in kept ==> p in segments)
            && (kept != [] ==> Split(Join(kept, '/'), '/') == kept && Join(kept, '/') != [])
            && |Join(kept, '/')| <= |Join(segments, '/')|
            && (kept != [] && kept != segments ==> |Join(kept, '/')| < |Join(segments, '/')|)
  {
    var kept := DropLeadingDot(segments);
    assert forall p :: p in kept ==> p in segments;
    JoinIsEmpty(kept);
    if kept != [] {
      SplitJoin(kept, '/');
    }
  }

  lemma KeptSegmentsFacts(value: string)
    requires SafeRelativePath(value).Ok?
    ensures var out := SafeRelativePath(value).value;
            var kept := KeptSegments(value);
            && FreeOf(kept, '/') && ".." !in kept && (forall p :: p in kept ==> p != [] && '\\' !in p && '\0' !in p)
            && out == (if kept == [] then "." else Join(kept, '/'))
            && Split(out, '/') == (if kept == [] then ["."] else kept)
            && |out| <= |Trim(value)|
            && (kept != [] && kept != NonEmpty(Split(Slashed(Trim(value)), '/')) ==> |out| < |Trim(value)|)
  {
    var n := Slashed(Trim(value));
    SlashedFacts(Trim(value));
    CleanSegments(n);
    DroppedDot(NonEmpty(Split(n, '/')));
    SplitWord(".", '/');
  }

  // ----- What is refused

  /** A slash of either kind. */
  predicate IsSlash(c: char) { c == '/' || c == '\\' }

  lemma EmptySegmentsAside(parts: seq<string>, p: string)
    requires p != [] && FreeOf(parts, '/')
    ensures p in NonEmpty(parts) <==> p in parts
  {
    NonEmptyFacts(parts);
  }

  /**
   A path is refused exactly when it is empty or longer than 500 characters, or what is left of it
   without edge white space is empty, begins with a slash of either kind or a drive, or holds a NUL,
   and, where none of these is so, when one of its segments is "..".
   */
  lemma RefusedIff(value: string)
    ensures var t := Trim(value);
            var notRelative :=
              || value == [] || |value| > 500 || t == [] || IsSlash(t[0]) || '\0' in t
              || (|t| >= 3 && IsLetter(t[0]) && t[1] == ':' && IsSlash(t[2]));
            && (SafeRelativePath(value) == Err(NotRelative) <==> notRelative)
            && (SafeRelativePath(value) == Err(Traverses) <==> !notRelative && ".." in Split(Slashed(t), '/'))
  {
    var t := Trim(value);
    var n := Slashed(t);
    SlashedFacts(t);
    NulSurvives(t);
    SplitIsFree(n, '/');
    EmptySegmentsAside(Split(n, '/'), "..");
  }

  lemma NulSurvives(t: string)
    ensures '\0' in Slashed(t) <==> '\0' in t
  {
    SlashedFacts(t);
    if '\0' in t {
      var k :| 0 <= k < |t| && t[k] == '\0';
      assert Slashed(t)[k] == '\0';
    }
    if '\0' in Slashed(t) {
      var k :| 0 <= k < |t| && Slashed(t)[k] == '\0';
      assert t[k] == '\0';
    }
  }

  /**
   What comes out never leaves the repository, is no longer than what went in, and walks the same
   directories as the trimmed, slash-converted input.
   */
  lemma NormalisationPreservesMeaning(value: string)
    requires SafeRelativePath(value).Ok?
    ensures var out := SafeRelativePath(value).value;
            && out != [] && out[0] != '/'
            && (forall p :: p in Split(out, '/') ==> p != [] && p != "..")
            && |out| <= |value|
            && Resolve(out) == Resolve(Slashed(Trim(value)))
  {
    KeptSegmentsFacts(value);
    TrimFacts(value);
    PlainSegments(KeptSegments(value), SafeRelativePath(value).value);
  }

  lemma PlainSegments(kept: seq<string>, out: string)
    requires FreeOf(kept, '/') && ".." !in kept && forall p :: p in kept ==> p != []
    requires out == if kept == [] then "." else Join(kept, '/')
    requires Split(out, '/') == if kept == [] then ["."] else kept
    ensures out != [] && out[0] != '/'
    ensures forall p :: p in Split(out, '/') ==> p != [] && p != ".."
    ensures Resolve(out) == NotDots(kept)
  {
    JoinIsEmpty(kept);
    NonEmptyFixed(Split(out, '/'));
    if kept != [] {
      assert '/' !in kept[0];
    }
  }

  /** The shape of a path that normalisation leaves alone. */
  ghost predicate NormalForm(s: string) {
    s == "." ||
    (&& 0 < |s| <= MAX_PATH_CHARACTERS
     && Trimmed(s)
     && '\\' !in s && '\0' !in s
     && !HasDrive(s)
     && (forall p :: p in Split(s, '/') ==> p != [] && p != "..")
     && Split(s, '/')[0] != ".")
  }

  /** The check "normalising changes nothing" accepts exactly the normal forms. */
  lemma AcceptedAsNormalizedIffNormalForm(s: string)
    ensures SafeRelativePath(s) == Ok(s) <==> NormalForm(s)
  {
    TrimFacts(s);
    if NormalForm(s) {
      NormalFormIsFixed(s);
    } else if SafeRelativePath(s) == Ok(s) {
      FixedIsNormalForm(s);
    }
  }

  lemma PlainPath(w: string)
    requires 0 < |w| <= MAX_PATH_CHARACTERS && Trimmed(w) && '\\' !in w && '\0' !in w
    requires w[0] != '/' && !HasDrive(w)
    requires forall p :: p in Split(w, '/') ==> p != [] && p != ".."
    ensures SafeRelativePath(w) == Ok(Compact(Split(w, '/')))
  {
    TrimFacts(w);
    SlashedFacts(w);
    var parts := Split(w, '/');
    SplitIsFree(w, '/');
    NonEmptyFixed(parts);
    assert ".." !in parts;
  }

  lemma DotIsFixed()
    ensures SafeRelativePath(".") == Ok(".")
  {
    SplitWord(".", '/');
    PlainPath(".");
  }

  lemma NormalFormIsFixed(s: string)
    requires NormalForm(s)
    ensures SafeRelativePath(s) == Ok(s)
  {
    if s == "." {
      DotIsFixed();
    } else {
      var parts := Split(s, '/');
      SplitIsFree(s, '/');
      JoinSplit(s, '/');
      assert parts[0] in parts;
      JoinIsEmpty(parts);
      PlainPath(s);
    }
  }

  lemma FixedIsNormalForm(s: string)
    requires SafeRelativePath(s) == Ok(s)
    ensures NormalForm(s)
  {
    TrimFacts(s);
    KeptSegmentsFacts(s);
    assert |Trim(s)| == |s|;
    assert Trim(s) == s;
    SlashedFacts(s);
    var kept := KeptSegments(s);
    var n := Slashed(s);
    if kept != [] {
      assert kept == NonEmpty(Split(n, '/'));
      assert kept[0] != ".";
      JoinSplit(s, '/');
      JoinHasNo(kept, '\\');
      assert n == s;
    }
  }

  lemma {:induction false} JoinHasNo(parts: seq<string>, c: char)
    requires c != '/' && forall p :: p in parts ==> c !in p
    ensures c !in Join(parts, '/')
  {
    if parts != [] {
      assert parts[0] in parts;
      if |parts| > 1 {
        JoinHasNo(parts[1..], c);
      }
    }
  }

  // ----- Normalising twice

  lemma IdempotentIffNormalForm(value: string)
    requires SafeRelativePath(value).Ok?
    ensures SafeRelativePath(SafeRelativePath(value).value) == SafeRelativePath(value)
            <==> NormalForm(SafeRelativePath(value).value)
  {
    AcceptedAsNormalizedIffNormalForm(SafeRelativePath(value).value);
  }

  /** The first of several segments reads as a drive. */
  predicate StartsWithDrive(kept: seq<string>) {
    |kept| >= 2 && |kept[0]| == 2 && IsLetter(kept[0][0]) && kept[0][1] == ':'
  }

  /** The segments kept do not open with another ".", with a drive or with white space, and do not end
      with white space. */
  predicate Settled(kept: seq<string>) {
    kept == [] || kept == ["."] ||
    (var last := kept[|kept| - 1];
     && kept[0] != "." && !StartsWithDrive(kept)
     && kept[0] != [] && !IsSpace(kept[0][0])
     && last != [] && !IsSpace(last[|last| - 1]))
  }

  lemma {:induction false} JoinEnds(parts: seq<string>)
    requires parts != [] && forall p :: p in parts ==> p != []
    ensures var j, last := Join(parts, '/'), parts[|parts| - 1];
            && parts[0] != [] && last != [] && j != []
            && j[0] == parts[0][0] && j[|j| - 1] == last[|last| - 1]
  {
    assert parts[0] in parts;
    if |parts| > 1 {
      assert forall p :: p in parts[1..] ==> p in parts;
      JoinEnds(parts[1..]);
    }
  }

  lemma JoinHasDrive(parts: seq<string>)
    requires parts != [] && FreeOf(parts, '/') && forall p :: p in parts ==> p != []
    ensures HasDrive(Join(parts, '/')) <==> StartsWithDrive(parts)
  {
    var j, first := Join(parts, '/'), parts[0];
    JoinEnds(parts);
    assert '/' !in first;
    if |parts| > 1 {
      assert j == first + ['/'] + Join(parts[1..], '/');
      assert forall p :: p in parts[1..] ==> p in parts;
      JoinEnds(parts[1..]);
      assert |first| > 2 ==> j[2] == first[2];
    }
  }

  lemma JoinedNormalForm(kept: seq<string>)
    requires kept != [] && FreeOf(kept, '/') && ".." !in kept
    requires forall p :: p in kept ==> p != [] && '\\' !in p && '\0' !in p
    requires |Join(kept, '/')| <= MAX_PATH_CHARACTERS
    ensures NormalForm(Join(kept, '/')) <==> Settled(kept)
  {
    var j := Join(kept, '/');
    JoinEnds(kept);
    JoinHasDrive(kept);
    JoinHasNo(kept, '\\');
    JoinHasNo(kept, '\0');
    SplitJoin(kept, '/');
    SplitWord(".", '/');
  }

  /**
   Normalising twice is normalising once exactly when the segments that are kept from the input are
   settled: the second pass would otherwise trim, drop a "." or refuse a drive that the first left alone.
   */
  lemma IdempotentIffSettled(value: string)
    requires SafeRelativePath(value).Ok?
    ensures SafeRelativePath(SafeRelativePath(value).value) == SafeRelativePath(value)
            <==> Settled(KeptSegments(value))
  {
    KeptSegmentsFacts(value);
    TrimFacts(value);
    IdempotentIffNormalForm(value);
    var kept := KeptSegments(value);
    if kept != [] {
      JoinedNormalForm(kept);
    }
  }

  function DotSlash(u: string): string { ['.', '/'] + u }

  lemma SplitDotSlash(u: string)
    ensures Split(DotSlash(u), '/') == ["."] + Split(u, '/')
  {
    assert DotSlash(u) == "." + ['/'] + u;
    SplitAtFirst(".", u, '/');
  }

  ghost predicate PlainParts(parts: seq<string>) { forall p :: p in parts ==> p != [] && p != ".." }

  /** What can follow "./" in a path that is accepted. */
  ghost predicate Tail(u: string) {
    u != [] && !IsSpace(u[|u| - 1]) && '\\' !in u && '\0' !in u && PlainParts(Split(u, '/'))
  }

  lemma DotSlashShape(u: string)
    requires Tail(u)
    ensures Tail(DotSlash(u)) && Trimmed(DotSlash(u)) && DotSlash(u)[0] == '.' && !HasDrive(DotSlash(u))
  {
    var w := DotSlash(u);
    assert w[0] == '.' && w[|w| - 1] == u[|u| - 1];
    SplitDotSlash(u);
  }

  lemma DotSlashIsDropped(u: string)
    requires Tail(u) && |u| + 2 <= MAX_PATH_CHARACTERS
    ensures SafeRelativePath(DotSlash(u)) == Ok(u)
  {
    DotSlashShape(u);
    PlainPath(DotSlash(u));
    SplitDotSlash(u);
    ConsParts(".", Split(u, '/'));
    JoinSplit(u, '/');
  }

  /** A path behind two dots loses one dot at each pass. */
  lemma TwoDotsNeedTwoPasses(s: string)
    requires NormalForm(s) && s != "." && |s| + 4 <= MAX_PATH_CHARACTERS
    ensures var one := DotSlash(s);
            SafeRelativePath(DotSlash(one)) == Ok(one) && SafeRelativePath(one) == Ok(s) && one != s
  {
    assert Tail(s);
    DotSlashShape(s);
    DotSlashIsDropped(s);
    DotSlashIsDropped(DotSlash(s));
  }

  /** Behind "./" a drive gets past the check, and the second pass refuses it. */
  lemma DriveBehindDot(s: string)
    requires HasDrive(s) && |s| + 2 <= MAX_PATH_CHARACTERS && Trimmed(s) && '\\' !in s && '\0' !in s
    requires forall p :: p in Split(s, '/') ==> p != [] && p != ".."
    ensures SafeRelativePath(DotSlash(s)) == Ok(s) && SafeRelativePath(s).Err?
  {
    assert Tail(s);
    DotSlashIsDropped(s);
    TrimFacts(s);
    SlashedFacts(s);
  }

  lemma SplitDrive()
    ensures Split("C:/x", '/') == ["C:", "x"]
  {
    SplitAtFirst("C:", "x", '/');
    SplitWord("x", '/');
    assert "C:/x" == "C:" + ['/'] + "x";
  }

  /** The input "./C:/x" becomes "C:/x", which is refused. */
  lemma DriveInput(s: string)
    requires s == "C:/x"
    ensures SafeRelativePath(DotSlash(s)) == Ok(s) && SafeRelativePath(s).Err?
  {
    SplitDrive();
    DriveBehindDot(s);
  }

  lemma SegmentsBeforeFinalSlash(v: string)
    requires v != [] && '/' !in v
    ensures NonEmpty(Split(v + ['/'], '/')) == [v]
  {
    SplitAtFirst(v, [], '/');
    NilUnit(v + ['/']);
    ConsParts(v, [[]]);
    assert NonEmpty([[]]) == [];
  }

  lemma FinalSlashShape(v: string)
    requires v != [] && !IsSpace(v[0]) && '/' !in v && '\\' !in v && '\0' !in v && (|v| != 2 || v[1] != ':')
    ensures var s := v + ['/'];
            Trimmed(s) && s[0] != '/' && '\\' !in s && '\0' !in s && !HasDrive(s)
  {
    var s := v + ['/'];
    assert s[0] == v[0] && s[|s| - 1] == '/' && forall c :: c in s ==> c in v || c == '/';
    if |v| > 2 {
      assert s[2] == v[2];
    }
  }

  lemma FinalSlashIsDropped(v: string)
    requires 0 < |v| < MAX_PATH_CHARACTERS && !IsSpace(v[0])
    requires '/' !in v && '\\' !in v && '\0' !in v && v != ".." && v != "."
    requires |v| != 2 || v[1] != ':'
    ensures SafeRelativePath(v + ['/']) == Ok(v)
  {
    FinalSlashShape(v);
    SegmentsBeforeFinalSlash(v);
    TrimFacts(v + ['/']);
    SlashedFacts(v + ['/']);
    OneSegment(v + ['/'], v);
  }

  lemma OneSegment(s: string, v: string)
    requires 0 < |s| <= MAX_PATH_CHARACTERS && Trim(s) == s && Slashed(s) == s
    requires s[0] != '/' && '\0' !in s && !HasDrive(s)
    requires NonEmpty(Split(s, '/')) == [v] && v != [] && v != ".." && v != "."
    ensures SafeRelativePath(s) == Ok(v)
  {
    assert ".." !in [v];
  }

  lemma TrimTrailingSpace(w: string)
    requires w != [] && Trimmed(w)
    ensures Trim(w + [' ']) == w
  {
    var v := w + [' '];
    assert v[..|v| - 1] == w && v[|v| - 1] == ' ';
    assert TrimStart(v) == v;
    assert TrimEnd(v) == TrimEnd(w) == w;
  }

  lemma WithSpace(w: string)
    requires NormalForm(w) && '/' !in w && |w| + 2 <= MAX_PATH_CHARACTERS
    ensures var v := w + [' '];
            && 0 < |v| < MAX_PATH_CHARACTERS && !IsSpace(v[0]) && v[|v| - 1] == ' '
            && '/' !in v && '\\' !in v && '\0' !in v && v != ".." && v != "." && (|v| != 2 || v[1] != ':')
  {
    var v := w + [' '];
    assert v[0] == w[0] && v[|v| - 1] == ' ';
  }

  /** White space before a final slash survives the first pass and not the second. */
  lemma SpaceBeforeSlash(w: string)
    requires NormalForm(w) && w != "." && '/' !in w && |w| + 2 <= MAX_PATH_CHARACTERS
    ensures SafeRelativePath(w + [' '] + ['/']) == Ok(w + [' ']) && SafeRelativePath(w + [' ']) == Ok(w)
  {
    WithSpace(w);
    FinalSlashIsDropped(w + [' ']);
    SpaceIsTrimmedAway(w);
  }

  lemma SpaceIsTrimmedAway(w: string)
    requires NormalForm(w) && w != "." && |w| < MAX_PATH_CHARACTERS
    ensures SafeRelativePath(w + [' ']) == Ok(w)
  {
    TrimTrailingSpace(w);
    TrimFacts(w);
    NormalFormIsFixed(w);
  }

  /** The input "x /" becomes "x ", and that becomes "x". */
  lemma SpaceInput(w: string)
    requires w == "x"
    ensures SafeRelativePath(w + [' '] + ['/']) == Ok(w + [' ']) && SafeRelativePath(w + [' ']) == Ok(w)
  {
    SplitWord(w, '/');
    SpaceBeforeSlash(w);
  }
}
