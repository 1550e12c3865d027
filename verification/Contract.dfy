/**
 The change list of a prompt that needs revision: what the detector proposed, or the sections of the
 generated contract when a proposal looks cut off. Case folding and white space are ASCII.
 */
module Contract {
  import opened Sequences
  import opened Wrappers
  import opened Text
  import opened Instructions

  const MAX_CHANGE_CHARACTERS: nat := 16_000
  const MAX_CHANGES: nat := 8
  const MAX_RESULTS: nat := 20

  const SECTION_NAMES: seq<string> :=
    ["Context", "Acceptance Criteria", "Oracle", "Non-Oracle", "Negative Cases", "Non-Goals"]

  datatype StoryError = Unsupported | Oversized | Unrecoverable

  // ----- Headings: "##", white space, a name, and the end of a line

  /** White space up to the end of a line or of the text: where it ends, as far on as it can. */
  function LineEnd(s: string): (n: Option<nat>)
    ensures n.Some? ==> n.value <= |s|
  {
    var w := SpaceCount(s);
    if w == |s| then Some(|s|) else LastNewline(s[..w])
  }

  function LastNewline(s: string): (n: Option<nat>)
    ensures n.Some? ==> n.value < |s| && s[n.value] == '\n'
    ensures n.None? <==> '\n' !in s
  {
    if s == [] then None
    else if s[|s| - 1] == '\n' then Some(|s| - 1)
    else
      assert s == s[..|s| - 1] + [s[|s| - 1]];
      LastNewline(s[..|s| - 1])
  }

  /** The shortest name: it stops as soon as only white space is left on its line. */
  function NameLength(s: string): (n: nat)
    ensures n <= |s| && LineEnd(s[n..]).Some?
  {
    if LineEnd(s).Some? then
      assert s[0..] == s;
      0
    else
      assert s != [] && s[1..][NameLength(s[1..])..] == s[1 + NameLength(s[1..])..];
      1 + NameLength(s[1..])
  }

  /** Where the name starts: after the white space, or at its last character that can be a name. */
  function NameStart(s: string): (n: Option<nat>)
    ensures n.Some? ==> 1 <= n.value < |s|
  {
    var w := SpaceCount(s);
    if w == 0 then None
    else if w < |s| then Some(w)
    else LastNameCharacter(s)
  }

  function LastNameCharacter(s: string): (n: Option<nat>)
    ensures n.Some? ==> 1 <= n.value < |s|
  {
    if |s| < 2 then None
    else if s[|s| - 1] != '\n' then Some(|s| - 1)
    else LastNameCharacter(s[..|s| - 1])
  }

  predicate StartsWithHashes(s: string) { |s| >= 2 && s[0] == '#' && s[1] == '#' }

  datatype Match = Match(name: string, length: nat)

  /** The match that begins with two hashes and `w` of white space, `t` being what follows. */
  function Found(t: string, w: nat): (m: Match)
    requires t != []
    ensures 2 < m.length <= 2 + w + |t|
  {
    var n := 1 + NameLength(t[1..]);
    assert t[1..][n - 1..] == t[n..];
    Match(t[..n], 2 + w + n + LineEnd(t[n..]).value)
  }

  /** The match in `s` when its name starts behind `start` of white space, if it can start at all. */
  function NamedFrom(s: string, start: Option<nat>): (m: Option<Match>)
    requires start.Some? ==> 2 + start.value < |s|
    ensures m.Some? ==> 2 < m.value.length <= |s|
  {
    if start.None? then None else Some(Found(s[2 + start.value..], start.value))
  }

  function Heading(s: string): (m: Option<Match>)
    ensures m.Some? ==> 2 < m.value.length <= |s|
  {
    if StartsWithHashes(s) then NamedFrom(s, NameStart(s[2..])) else None
  }

  datatype Section = Section(name: string, body: string)

  /** The text before the first heading, and each heading with the text up to the next one. */
  datatype Layout = Layout(lead: string, sections: seq<Section>)

  function LayoutOf(s: string, lineStart: bool): Layout
    decreases |s|
  {
    if s == [] then Layout([], [])
    else
      var heading := if lineStart then Heading(s) else None;
      match heading
      case Some(m) =>
        var rest := LayoutOf(s[m.length..], s[m.length - 1] == '\n');
        Layout([], [Section(m.name, rest.lead)] + rest.sections)
      case None =>
        var rest := LayoutOf(s[1..], s[0] == '\n');
        Layout([s[0]] + rest.lead, rest.sections)
  }

  // ----- Recovering the sections

  function Fold(s: string): string {
    if s == [] then [] else [if 'A' <= s[0] <= 'Z' then s[0] - 'A' + 'a' else s[0]] + Fold(s[1..])
  }

  /** Folding turns each capital into its small letter and leaves the rest. */
  lemma {:induction false} FoldMeaning(s: string, k: nat)
    requires k < |s|
    ensures |Fold(s)| == |s|
    ensures 'A' <= s[k] <= 'Z' ==> 'a' <= Fold(s)[k] <= 'z' && Fold(s)[k] as int - 97 == s[k] as int - 65
    ensures !('A' <= s[k] <= 'Z') ==> Fold(s)[k] == s[k]
  {
    FoldLength(s);
    if k > 0 {
      FoldMeaning(s[1..], k - 1);
    }
  }

  lemma {:induction false} FoldLength(s: string)
    ensures |Fold(s)| == |s|
  {
    if s != [] {
      FoldLength(s[1..]);
    }
  }

  datatype Entry = Entry(key: string, body: string)

  function EntryOf(section: Section): Entry { Entry(Fold(Trim(section.name)), Trim(section.body)) }

  function Entries(sections: seq<Section>): seq<Entry> {
    seq(|sections|, k requires 0 <= k < |sections| => EntryOf(sections[k]))
  }

  /** Entry `k` is the last that gives the key a body. */
  ghost predicate LastWithBody(entries: seq<Entry>, key: string, k: int) {
    && 0 <= k < |entries| && entries[k].key == key && entries[k].body != []
    && forall j :: k < j < |entries| ==> !(entries[j].key == key && entries[j].body != [])
  }

  /** What the entries come to, each in turn. */
  function Filed(entries: seq<Entry>): map<string, string> {
    if entries == [] then map[]
    else
      var front, last := Filed(entries[..|entries| - 1]), entries[|entries| - 1];
      if last.body == [] then front else front[last.key := last.body]
  }

  /** The sections found by their folded names. */
  function Collected(sections: seq<Section>): map<string, string> { Filed(Entries(sections)) }

  lemma {:induction false} FiledMeaning(entries: seq<Entry>, key: string)
    ensures key in Filed(entries) <==> exists k :: LastWithBody(entries, key, k)
    ensures forall k :: LastWithBody(entries, key, k) ==> key in Filed(entries) && Filed(entries)[key] == entries[k].body
  {
    if entries != [] {
      var n := |entries| - 1;
      var front := entries[..n];
      FiledMeaning(front, key);
      if entries[n].key == key && entries[n].body != [] {
        assert LastWithBody(entries, key, n);
      } else {
        forall k ensures LastWithBody(entries, key, k) <==> LastWithBody(front, key, k) {
          assert forall j :: 0 <= j < n ==> front[j] == entries[j];
        }
      }
    }
  }

  /** Under each folded name stands the trimmed body of the last section of that name that has one. */
  lemma CollectedMeaning(sections: seq<Section>, key: string)
    ensures key in Collected(sections) <==> exists k :: LastWithBody(Entries(sections), key, k)
    ensures forall k :: LastWithBody(Entries(sections), key, k) ==>
              key in Collected(sections) && Collected(sections)[key] == Entries(sections)[k].body
  {
    FiledMeaning(Entries(sections), key);
  }

  function Recommendation(name: string, body: string): string {
    "Update the prompt with the complete PDD \"" + name + "\" contract section:\n\n## " + name + "\n" + body
  }

  function Recover(names: seq<string>, sections: map<string, string>): Result<seq<string>, StoryError> {
    if names == [] then Ok([])
    else if Fold(names[0]) !in sections || sections[Fold(names[0])] == [] then Recover(names[1..], sections)
    else
      var recommendation := Recommendation(names[0], sections[Fold(names[0])]);
      if |recommendation| > MAX_CHANGE_CHARACTERS then Err(Oversized)
      else match Recover(names[1..], sections)
        case Ok(rest) => Ok([recommendation] + rest)
        case Err(e) => Err(e)
  }

  function Recommendations(names: seq<string>, contract: string): Result<seq<string>, StoryError> {
    var r := Recover(names, Collected(LayoutOf(contract, true).sections));
    if r == Ok([]) then Err(Unrecoverable) else r
  }

  function ContractChangeRecommendations(contract: string): Result<seq<string>, StoryError> {
    Recommendations(SECTION_NAMES, contract)
  }

  // ----- Detector output

  function Rstrip(s: string): string { TrimEnd(s) }

  predicate LooksComplete(instruction: string) {
    var compact := Rstrip(instruction);
    && compact != []
    && !(|compact| >= 3 && compact[|compact| - 3..] == "...")
    && compact[|compact| - 1] in ".!?:)]}\"'`"
  }

  lemma {:induction false} RstripIs(s: string, k: nat)
    requires k <= |s| && (forall j :: k <= j < |s| ==> IsSpace(s[j])) && (k > 0 ==> !IsSpace(s[k - 1]))
    ensures Rstrip(s) == s[..k]
    decreases |s|
  {
    if k < |s| {
      RstripIs(s[..|s| - 1], k);
      assert s[..|s| - 1][..k] == s[..k];
    } else {
      assert s[..k] == s;
    }
  }

  predicate ClosesSentence(c: char) {
    c == '.' || c == '!' || c == '?' || c == ':' || c == ')' || c == ']' || c == '}' || c == '"' || c == '\'' || c == '`'
  }

  /** Complete to look at: what is left without white space at the end closes with one of ten marks and
      not with three dots. */
  lemma CompleteMeaning(s: string, k: nat)
    requires k <= |s| && (forall j :: k <= j < |s| ==> IsSpace(s[j])) && (k > 0 ==> !IsSpace(s[k - 1]))
    ensures LooksComplete(s) <==>
            && k > 0 && ClosesSentence(s[k - 1])
            && !(k >= 3 && s[k - 3] == '.' && s[k - 2] == '.' && s[k - 1] == '.')
  {
    RstripIs(s, k);
    var r := s[..k];
    if k >= 3 {
      assert r[k - 3..] == [s[k - 3], s[k - 2], s[k - 1]];
    }
  }

  datatype Change = NotAnObject | NoText | Text(instruction: string)

  datatype StoryResult = NotAResult | StoryResult(changes: seq<Change>)

  datatype Outcome = Pass | StoryFailure | OtherOutcome

  datatype Verdict = Passed | NeedsRevision

  function PiecesOfChange(c: Change): seq<string> {
    if c.Text? then SplitInstructions(c.instruction) else []
  }

  function PiecesOfChanges(changes: seq<Change>): seq<string> {
    if changes == [] then [] else PiecesOfChange(changes[0]) + PiecesOfChanges(changes[1..])
  }

  function PiecesOfResults(results: seq<StoryResult>): seq<string> {
    if results == [] then []
    else (if results[0].StoryResult? then PiecesOfChanges(results[0].changes) else []) + PiecesOfResults(results[1..])
  }

  /** The pieces are those of each text in turn, change after change and result after result. */
  lemma {:induction false} PiecesMeaning(a: seq<StoryResult>, b: seq<StoryResult>, c: seq<Change>, d: seq<Change>, text: string)
    ensures PiecesOfResults(a + b) == PiecesOfResults(a) + PiecesOfResults(b)
    ensures PiecesOfResults([StoryResult(c)]) == PiecesOfChanges(c) && PiecesOfResults([NotAResult]) == []
    ensures PiecesOfChanges(c + d) == PiecesOfChanges(c) + PiecesOfChanges(d)
    ensures PiecesOfChanges([Text(text)]) == SplitInstructions(text)
    ensures PiecesOfChanges([NoText]) == [] && PiecesOfChanges([NotAnObject]) == []
  {
    ResultsConcat(a, b);
    ChangesConcat(c, d);
    assert [StoryResult(c)][1..] == [] && [NotAResult][1..] == [];
    assert [Text(text)][1..] == [] && [NoText][1..] == [] && [NotAnObject][1..] == [];
  }

  lemma {:induction false} ResultsConcat(a: seq<StoryResult>, b: seq<StoryResult>)
    ensures PiecesOfResults(a + b) == PiecesOfResults(a) + PiecesOfResults(b)
  {
    if a == [] {
      NilUnit(b);
    } else {
      DropWithin(a, b, 1);
      ResultsConcat(a[1..], b);
      Assoc(if a[0].StoryResult? then PiecesOfChanges(a[0].changes) else [], PiecesOfResults(a[1..]), PiecesOfResults(b));
    }
  }

  lemma {:induction false} ChangesConcat(a: seq<Change>, b: seq<Change>)
    ensures PiecesOfChanges(a + b) == PiecesOfChanges(a) + PiecesOfChanges(b)
  {
    if a == [] {
      NilUnit(b);
    } else {
      DropWithin(a, b, 1);
      ChangesConcat(a[1..], b);
      Assoc(PiecesOfChange(a[0]), PiecesOfChanges(a[1..]), PiecesOfChanges(b));
    }
  }

  /** New pieces join the list; the first that is too long ends the run. */
  function Added(list: seq<string>, pieces: seq<string>): Result<seq<string>, StoryError>
    decreases |pieces|
  {
    if pieces == [] then Ok(list)
    else if pieces[0] == [] || pieces[0] in list then Added(list, pieces[1..])
    else if |pieces[0]| > MAX_CHANGE_CHARACTERS then Err(Oversized)
    else Added(list + [pieces[0]], pieces[1..])
  }

  const DEFAULT_CHANGE: string :=
    "Revise the implementation prompt so it explicitly delivers the user story's observable outcome."

  lemma {:induction false} AddedConcat(list: seq<string>, a: seq<string>, b: seq<string>)
    ensures Added(list, a + b) == match Added(list, a) case Ok(l) => Added(l, b) case Err(e) => Err(e)
    decreases |a|
  {
    if a == [] {
      assert a + b == b;
    } else {
      assert (a + b)[1..] == a[1..] + b;
      if !(a[0] == [] || a[0] in list) && |a[0]| <= MAX_CHANGE_CHARACTERS {
        AddedConcat(list + [a[0]], a[1..], b);
      } else {
        AddedConcat(list, a[1..], b);
      }
    }
  }

  method AddChange(list: seq<string>, change: Change) returns (r: Result<seq<string>, StoryError>)
    ensures r == Added(list, PiecesOfChange(change))
  {
    if !change.Text? {
      return Ok(list);
    }
    var pieces := SplitInstructions(change.instruction);
    var changes := list;
    var i := 0;
    while i < |pieces|
      invariant 0 <= i <= |pieces|
      invariant Added(list, pieces) == Added(changes, pieces[i..])
    {
      DropStep(pieces, i);
      if pieces[i] != [] && pieces[i] !in changes {
        if |pieces[i]| > MAX_CHANGE_CHARACTERS {
          return Err(Oversized);
        }
        changes := changes + [pieces[i]];
      }
      i := i + 1;
    }
    return Ok(changes);
  }

  method AddResult(list: seq<string>, result: StoryResult) returns (r: Result<seq<string>, StoryError>)
    ensures r == Added(list, if result.StoryResult? then PiecesOfChanges(result.changes) else [])
  {
    if !result.StoryResult? {
      return Ok(list);
    }
    r := Ok(list);
    var i := 0;
    while i < |result.changes|
      invariant 0 <= i <= |result.changes| && r.Ok?
      invariant Added(list, PiecesOfChanges(result.changes)) == Added(r.value, PiecesOfChanges(result.changes[i..]))
    {
      var rest := result.changes[i..];
      assert rest[0] == result.changes[i] && rest[1..] == result.changes[i + 1..];
      AddedConcat(r.value, PiecesOfChange(rest[0]), PiecesOfChanges(rest[1..]));
      r := AddChange(r.value, result.changes[i]);
      if r.Err? {
        return;
      }
      i := i + 1;
    }
  }

  function Considered(results: seq<StoryResult>): seq<StoryResult> {
    if |results| > MAX_RESULTS then results[..MAX_RESULTS] else results
  }

  function Bounded(outcome: Outcome, changes: seq<string>): seq<string> {
    var all := if outcome == StoryFailure && changes == [] then [DEFAULT_CHANGE] else changes;
    if |all| > MAX_CHANGES then all[..MAX_CHANGES] else all
  }

  function ParsedChanges(outcome: Outcome, results: seq<StoryResult>): Result<seq<string>, StoryError> {
    match Added([], PiecesOfResults(Considered(results)))
    case Err(e) => Err(e)
    case Ok(changes) => Ok(Bounded(outcome, changes))
  }

  method AddResults(results: seq<StoryResult>) returns (r: Result<seq<string>, StoryError>)
    ensures r == Added([], PiecesOfResults(results))
  {
    var changes := [];
    var i := 0;
    while i < |results|
      invariant 0 <= i <= |results|
      invariant Added([], PiecesOfResults(results)) == Added(changes, PiecesOfResults(results[i..]))
    {
      var rest := results[i..];
      assert rest[0] == results[i] && rest[1..] == results[i + 1..];
      AddedConcat(changes, if rest[0].StoryResult? then PiecesOfChanges(rest[0].changes) else [], PiecesOfResults(rest[1..]));
      var added := AddResult(changes, results[i]);
      if added.Err? {
        return added;
      }
      changes := added.value;
      i := i + 1;
    }
    return Ok(changes);
  }

  method ParseStoryDetection(outcome: Outcome, results: seq<StoryResult>)
    returns (r: Result<(Verdict, seq<string>), StoryError>)
    ensures r.Ok? <==> outcome != OtherOutcome && ParsedChanges(outcome, results).Ok?
    ensures r.Ok? ==> r.value == (if outcome == Pass then Passed else NeedsRevision,
                                  ParsedChanges(outcome, results).value)
  {
    if outcome == OtherOutcome {
      return Err(Unsupported);
    }
    var changes := AddResults(Considered(results));
    if changes.Err? {
      return Err(changes.error);
    }
    return Ok((if outcome == Pass then Passed else NeedsRevision, Bounded(outcome, changes.value)));
  }

  function CompleteStoryChanges(changes: seq<string>, contract: string): Result<seq<string>, StoryError> {
    if changes != [] && forall c :: c in changes ==> LooksComplete(c) then Ok(changes)
    else ContractChangeRecommendations(contract)
  }

  // ----- The change list

  ghost predicate DetectorList(changes: seq<string>) {
    && |changes| <= 8
    && (forall i, j :: 0 <= i < j < |changes| ==> changes[i] != changes[j])
    && (forall c :: c in changes ==> c != [] && |c| <= 16_000)
  }

  lemma {:induction false} AddedKeepsDistinct(list: seq<string>, pieces: seq<string>)
    requires forall i, j :: 0 <= i < j < |list| ==> list[i] != list[j]
    requires forall c :: c in list ==> c != [] && |c| <= MAX_CHANGE_CHARACTERS
    ensures Added(list, pieces).Ok? ==>
              var r := Added(list, pieces).value;
              && (forall i, j :: 0 <= i < j < |r| ==> r[i] != r[j])
              && (forall c :: c in r ==> c != [] && |c| <= MAX_CHANGE_CHARACTERS)
              && (forall c :: c in r <==> c in list || (c in pieces && c != []))
    decreases |pieces|
  {
    if pieces != [] {
      var p := pieces[0];
      assert forall c :: c in pieces <==> c == p || c in pieces[1..];
      if p == [] || p in list {
        AddedKeepsDistinct(list, pieces[1..]);
      } else if |p| <= MAX_CHANGE_CHARACTERS {
        AddedKeepsDistinct(list + [p], pieces[1..]);
      }
    }
  }

  /** The non-empty pieces in the order they first occur. */
  function FirstOccurrences(pieces: seq<string>): seq<string> {
    if pieces == [] then []
    else
      var front, last := pieces[..|pieces| - 1], pieces[|pieces| - 1];
      FirstOccurrences(front) + (if last == [] || last in front then [] else [last])
  }

  lemma {:induction false} FirstOccurrencesFacts(pieces: seq<string>)
    ensures forall c :: c in FirstOccurrences(pieces) <==> c in pieces && c != []
  {
    if pieces != [] {
      var front, last := pieces[..|pieces| - 1], pieces[|pieces| - 1];
      FirstOccurrencesFacts(front);
      assert forall c :: c in pieces <==> c in front || c == last;
    }
  }

  ghost predicate HasOversized(pieces: seq<string>) { exists c :: c in pieces && |c| > 16_000 }

  /** What is collected: every piece once, in the order of first occurrence; refused exactly when one of
      them is longer than 16000 characters. */
  lemma {:induction false} CollectedInOrder(pieces: seq<string>)
    ensures Added([], pieces) == if HasOversized(pieces) then Err(Oversized) else Ok(FirstOccurrences(pieces))
  {
    if pieces != [] {
      var front, last := pieces[..|pieces| - 1], pieces[|pieces| - 1];
      CollectedInOrder(front);
      assert pieces == front + [last];
      assert forall c :: c in pieces <==> c in front || c == last;
      assert HasOversized(pieces) <==> HasOversized(front) || |last| > 16_000 by {
        assert last in pieces;
      }
      AddedConcat([], front, [last]);
      FirstOccurrencesFacts(front);
      if !HasOversized(front) {
        var list := FirstOccurrences(front);
        AddedOne(list, last);
        assert Added([], pieces) == Added(list, [last]);
        if last == [] || last in front {
          assert FirstOccurrences(pieces) == list + [] == list;
        }
      }
    }
  }

  lemma AddedOne(list: seq<string>, piece: string)
    ensures Added(list, [piece]) ==
            if piece == [] || piece in list then Ok(list)
            else if |piece| > 16_000 then Err(Oversized)
            else Ok(list + [piece])
  {
    assert [piece][1..] == [];
  }

  /** The first 20 results, their pieces once each in order, the default change when a failing story has
      none, and the first 8 of these. */
  lemma ParsedChangesExactly(outcome: Outcome, results: seq<StoryResult>)
    ensures var pieces := PiecesOfResults(if |results| <= 20 then results else results[..20]);
            var changes := if outcome == StoryFailure && FirstOccurrences(pieces) == [] then [DEFAULT_CHANGE]
                           else FirstOccurrences(pieces);
            ParsedChanges(outcome, results) ==
              if HasOversized(pieces) then Err(Oversized)
              else Ok(if |changes| <= 8 then changes else changes[..8])
  {
    CollectedInOrder(PiecesOfResults(if |results| <= 20 then results else results[..20]));
  }

  lemma ParsedChangesAreADetectorList(outcome: Outcome, results: seq<StoryResult>)
    requires ParsedChanges(outcome, results).Ok?
    ensures DetectorList(ParsedChanges(outcome, results).value)
    ensures outcome == StoryFailure ==> ParsedChanges(outcome, results).value != []
  {
    AddedKeepsDistinct([], PiecesOfResults(Considered(results)));
  }

  /**
   A revision always comes with a change list: complete-looking, distinct detector items, or the
   contract's sections.
   */
  lemma RevisionsHaveChanges(results: seq<StoryResult>, contract: string)
    requires ParsedChanges(StoryFailure, results).Ok?
    requires CompleteStoryChanges(ParsedChanges(StoryFailure, results).value, contract).Ok?
    ensures var changes := CompleteStoryChanges(ParsedChanges(StoryFailure, results).value, contract).value;
            && changes != []
            && if forall c :: c in ParsedChanges(StoryFailure, results).value ==> LooksComplete(c) then
                 DetectorList(changes) && changes == ParsedChanges(StoryFailure, results).value
               else
                 ContractChangeRecommendations(contract) == Ok(changes)
  {
    ParsedChangesAreADetectorList(StoryFailure, results);
  }

  // ----- Printing a contract and recovering its sections

  function HeadingText(name: string): string { ['#', '#', ' '] + name }

  function Printed(sections: seq<Section>): string {
    if sections == [] then []
    else
      var last := |sections| == 1;
      HeadingText(sections[0].name) + Between(sections[0], last) + Printed(sections[1..])
  }

  /** The text between one printed heading and the next: a body on lines of its own. */
  function Between(section: Section, last: bool): string {
    ['\n'] + section.body + (if last then [] else ['\n', '\n'])
  }

  /** No line of the text begins with two hashes; `lineStart` tells whether the text begins a line. */
  ghost predicate NoHashLine(t: string, lineStart: bool) {
    forall i :: 0 <= i < |t| && (if i == 0 then lineStart else t[i - 1] == '\n') ==> !StartsWithHashes(t[i..])
  }

  ghost predicate GoodName(name: string) { name != [] && Trimmed(name) && '\n' !in name }

  ghost predicate GoodSection(section: Section) {
    && GoodName(section.name)
    && section.body != [] && Trimmed(section.body) && NoHashLine(section.body, true)
  }

  lemma NoHashTail(t: string, lineStart: bool)
    requires t != [] && NoHashLine(t, lineStart)
    ensures NoHashLine(t[1..], t[0] == '\n')
  {
    forall i | 0 <= i < |t[1..]| && (if i == 0 then t[0] == '\n' else t[1..][i - 1] == '\n')
      ensures !StartsWithHashes(t[1..][i..])
    {
      assert t[1..][i..] == t[i + 1..];
    }
  }

  lemma NoHeadingHere(t: string, lineStart: bool, rest: string)
    requires t != [] && NoHashLine(t, lineStart) && (rest == [] || t[|t| - 1] == '\n')
    ensures lineStart ==> Heading(t + rest).None?
  {
    assert t[0..] == t;
    if |t| == 1 && rest != [] {
      assert (t + rest)[0] == '\n';
    }
  }

  lemma LayoutStep(s: string, lineStart: bool)
    requires s != [] && (lineStart ==> Heading(s).None?)
    ensures var rest := LayoutOf(s[1..], s[0] == '\n');
            LayoutOf(s, lineStart) == Layout([s[0]] + rest.lead, rest.sections)
  {
  }

  lemma {:induction false} PlainTextIsLead(t: string, lineStart: bool, rest: string)
    requires NoHashLine(t, lineStart)
    requires if t == [] then lineStart || rest == [] else rest == [] || t[|t| - 1] == '\n'
    ensures var l := LayoutOf(rest, true);
            LayoutOf(t + rest, lineStart) == Layout(t + l.lead, l.sections)
  {
    if t == [] {
      assert t + rest == rest;
    } else {
      NoHashTail(t, lineStart);
      NoHeadingHere(t, lineStart, rest);
      LayoutStep(t + rest, lineStart);
      PlainTextIsLead(t[1..], t[0] == '\n', rest);
      DropWithin(t, rest, 1);
      AsCons(t);
      Assoc([t[0]], t[1..], LayoutOf(rest, true).lead);
    }
  }

  lemma HeadingSlices(name: string, after: string)
    ensures var line := name + ['\n'] + after;
            var s := HeadingText(name) + (['\n'] + after);
            && StartsWithHashes(s) && s[2..] == [' '] + line && s[3..] == line && line[..|name|] == name
  {
    var line := name + ['\n'] + after;
    var s := HeadingText(name) + (['\n'] + after);
    Assoc(['#', '#', ' '], name, ['\n'] + after);
    Assoc(name, ['\n'], after);
    Halves(name, ['\n'] + after);
    Halves(['#', '#', ' '], line);
    Assoc(['#', '#'], [' '], line);
    Halves(['#', '#'], [' '] + line);
    assert ['#', '#', ' '] == ['#', '#'] + [' '];
  }

  lemma HeadingFound(s: string, line: string, n: nat)
    requires StartsWithHashes(s) && NameStart(s[2..]) == Some(1) && s[3..] == line
    requires 0 < n < |line| && 1 + NameLength(line[1..]) == n && LineEnd(line[n..]) == Some(0)
    ensures Heading(s) == Some(Match(line[..n], 3 + n))
  {
  }

  /** A printed heading is found, with its name, up to the end of its line. */
  lemma PrintedHeading(name: string, after: string)
    requires GoodName(name) && after != [] && !IsSpace(after[0])
    ensures Heading(HeadingText(name) + (['\n'] + after)) == Some(Match(name, 3 + |name|))
  {
    var line := name + ['\n'] + after;
    var s := HeadingText(name) + (['\n'] + after);
    HeadingSlices(name, after);
    FirstNameCharacter(line);
    NameEndsWithLine(name, after);
    HeadingFound(s, line, |name|);
  }

  lemma FirstNameCharacter(line: string)
    requires line != [] && !IsSpace(line[0])
    ensures NameStart([' '] + line) == Some(1)
  {
    assert ([' '] + line)[1..] == line;
    assert SpaceCount(line) == 0;
    assert SpaceCount([' '] + line) == 1;
  }

  lemma NameEndsWithLine(name: string, after: string)
    requires GoodName(name) && after != [] && !IsSpace(after[0])
    ensures var line := name + ['\n'] + after;
            1 + NameLength(line[1..]) == |name| && LineEnd(line[|name|..]) == Some(0)
  {
    var line := name + ['\n'] + after;
    var tail := name[1..];
    assert line[1..] == tail + (['\n'] + after);
    assert line[|name|..] == ['\n'] + after;
    NewlineEndsLine(after);
    NameTail(tail, after);
  }

  lemma NewlineEndsLine(after: string)
    requires after != [] && !IsSpace(after[0])
    ensures LineEnd(['\n'] + after) == Some(0)
  {
    var s := ['\n'] + after;
    assert s[1..] == after && SpaceCount(after) == 0;
    assert SpaceCount(s) == 1;
    assert s[..1] == ['\n'];
  }

  lemma {:induction false} NameTail(tail: string, after: string)
    requires after != [] && !IsSpace(after[0]) && '\n' !in tail && EndsWell(tail)
    ensures NameLength(tail + (['\n'] + after)) == |tail|
  {
    var s := tail + (['\n'] + after);
    if tail == [] {
      assert s == ['\n'] + after;
      NewlineEndsLine(after);
    } else {
      assert tail[0] in tail;
      StillInName(tail, after);
      assert s[1..] == tail[1..] + (['\n'] + after);
      NameTail(tail[1..], after);
    }
  }

  lemma {:induction false} SpacesInside(tail: string, more: string)
    requires tail != [] && EndsWell(tail)
    ensures SpaceCount(tail + more) < |tail|
  {
    if IsSpace(tail[0]) {
      assert (tail + more)[1..] == tail[1..] + more;
      SpacesInside(tail[1..], more);
    }
  }

  lemma StillInName(tail: string, after: string)
    requires tail != [] && EndsWell(tail) && '\n' !in tail && after != []
    ensures LineEnd(tail + (['\n'] + after)).None?
  {
    var s := tail + (['\n'] + after);
    SpacesInside(tail, ['\n'] + after);
    var blank := s[..SpaceCount(s)];
    assert forall c :: c in blank ==> c in tail;
    assert '\n' !in blank;
  }

  lemma NoHashLineBetween(b: string, blank: string)
    requires NoHashLine(b, true) && (blank == [] || blank == ['\n', '\n'])
    ensures NoHashLine(['\n'] + b + blank, false)
  {
    var t := ['\n'] + b + blank;
    forall i | 0 <= i < |t| && (if i == 0 then false else t[i - 1] == '\n') ensures !StartsWithHashes(t[i..]) {
      if 1 <= i <= |b| && StartsWithHashes(t[i..]) {
        assert t[i] == b[i - 1];
        assert i < |b| && t[i + 1] == b[i];
        assert i > 1 ==> t[i - 1] == b[i - 2];
        assert StartsWithHashes(b[i - 1..]);
      }
    }
  }

  lemma TrimBetween(b: string, blank: string)
    requires b != [] && Trimmed(b) && (blank == [] || blank == ['\n', '\n'])
    ensures Trim(['\n'] + b + blank) == b
  {
    Assoc(['\n'], b, blank);
    ConsParts('\n', b + blank);
    assert (b + blank)[0] == b[0];
    assert TrimStart(['\n'] + b + blank) == b + blank;
    AllBlank(blank);
    TrimEndBlank(b, blank);
  }

  lemma BetweenIsPlain(section: Section, last: bool)
    requires GoodSection(section)
    ensures NoHashLine(Between(section, last), false) && Trim(Between(section, last)) == section.body
    ensures !last ==> Between(section, last)[|Between(section, last)| - 1] == '\n'
  {
    var blank := if last then [] else ['\n', '\n'];
    NoHashLineBetween(section.body, blank);
    TrimBetween(section.body, blank);
  }

  lemma {:induction false} PrintedLayout(sections: seq<Section>)
    requires forall k :: 0 <= k < |sections| ==> GoodSection(sections[k])
    ensures var l := LayoutOf(Printed(sections), true);
            && l.lead == [] && |l.sections| == |sections|
            && forall k :: 0 <= k < |sections| ==>
                 l.sections[k] == Section(sections[k].name, Between(sections[k], k == |sections| - 1))
  {
    if sections != [] {
      PrintedLayout(sections[1..]);
      FirstSection(sections[0], |sections| == 1, Printed(sections[1..]));
      assert Printed(sections)
             == HeadingText(sections[0].name) + Between(sections[0], |sections| == 1) + Printed(sections[1..]);
    }
  }

  lemma FirstSection(section: Section, last: bool, rest: string)
    requires GoodSection(section) && (last ==> rest == []) && LayoutOf(rest, true).lead == []
    ensures LayoutOf(HeadingText(section.name) + Between(section, last) + rest, true)
            == Layout([], [Section(section.name, Between(section, last))] + LayoutOf(rest, true).sections)
  {
    var t := Between(section, last);
    var h := HeadingText(section.name);
    BetweenIsPlain(section, last);
    HeadingBeforeBody(section, last, rest);
    PlainTextIsLead(t, false, rest);
    NilUnit(t);
    HeadingStep(h + t + rest, section.name, t + rest);
  }

  lemma HeadingBeforeBody(section: Section, last: bool, rest: string)
    requires GoodSection(section)
    ensures var s := HeadingText(section.name) + Between(section, last) + rest;
            && Heading(s) == Some(Match(section.name, 3 + |section.name|))
            && s[3 + |section.name|..] == Between(section, last) + rest
            && s[2 + |section.name|] != '\n'
  {
    var h := HeadingText(section.name);
    var blank := if last then [] else ['\n', '\n'];
    var after := section.body + blank + rest;
    Assoc(['\n'], section.body, blank);
    Assoc(['\n'], section.body + blank, rest);
    Assoc(h, Between(section, last), rest);
    Halves(h, ['\n'] + after);
    assert after[0] == section.body[0];
    PrintedHeading(section.name, after);
    assert h[2 + |section.name|] == section.name[|section.name| - 1];
  }

  lemma HeadingStep(s: string, name: string, t: string)
    requires Heading(s) == Some(Match(name, 3 + |name|)) && s[3 + |name|..] == t && s[2 + |name|] != '\n'
    ensures var rest := LayoutOf(t, false);
            LayoutOf(s, true) == Layout([], [Section(name, rest.lead)] + rest.sections)
  {
  }

  // ----- The sections found by name

  ghost function BodyOf(sections: seq<Section>, key: string): Option<string> {
    if sections == [] then None
    else if Fold(sections[0].name) == key then Some(sections[0].body)
    else BodyOf(sections[1..], key)
  }

  ghost function Expected(names: seq<string>, sections: seq<Section>): seq<string> {
    if names == [] then []
    else
      (match BodyOf(sections, Fold(names[0]))
       case Some(body) => [Recommendation(names[0], body)]
       case None => []) + Expected(names[1..], sections)
  }

  ghost predicate DistinctNames(sections: seq<Section>) {
    forall i, j :: 0 <= i < j < |sections| ==> Fold(sections[i].name) != Fold(sections[j].name)
  }

  /** `found` is `sections` with its bodies still in their white space. */
  ghost predicate SameSections(found: seq<Section>, sections: seq<Section>) {
    && |found| == |sections|
    && forall k :: 0 <= k < |sections| ==>
         && Trim(found[k].name) == sections[k].name
         && Trim(found[k].body) == sections[k].body != []
  }

  lemma {:induction false} BodyOfLast(sections: seq<Section>, key: string)
    requires sections != [] && DistinctNames(sections)
    ensures var last := sections[|sections| - 1];
            BodyOf(sections, key) == if Fold(last.name) == key then Some(last.body) else BodyOf(sections[..|sections| - 1], key)
  {
    if |sections| > 1 {
      BodyOfLast(sections[1..], key);
      assert sections[1..][..|sections| - 2] == sections[..|sections| - 1][1..];
    }
  }

  lemma {:induction false} FiledByName(entries: seq<Entry>, sections: seq<Section>, key: string)
    requires |entries| == |sections| && DistinctNames(sections)
    requires forall k :: 0 <= k < |sections| ==> entries[k] == Entry(Fold(sections[k].name), sections[k].body)
    requires forall k :: 0 <= k < |sections| ==> sections[k].body != []
    ensures BodyOf(sections, key) == if key in Filed(entries) then Some(Filed(entries)[key]) else None
    ensures key in Filed(entries) ==> Filed(entries)[key] != []
  {
    if sections != [] {
      var n := |sections| - 1;
      FiledByName(entries[..n], sections[..n], key);
      BodyOfLast(sections, key);
    }
  }

  lemma CollectedByName(found: seq<Section>, sections: seq<Section>, key: string)
    requires SameSections(found, sections) && DistinctNames(sections)
    ensures BodyOf(sections, key) == if key in Collected(found) then Some(Collected(found)[key]) else None
    ensures key in Collected(found) ==> Collected(found)[key] != []
  {
    forall k | 0 <= k < |sections| ensures Entries(found)[k] == Entry(Fold(sections[k].name), sections[k].body) {
      assert Trim(found[k].name) == sections[k].name;
    }
    FiledByName(Entries(found), sections, key);
  }

  ghost predicate SomeTooLong(list: seq<string>) {
    exists k :: 0 <= k < |list| && |list[k]| > MAX_CHANGE_CHARACTERS
  }

  lemma {:induction false} RecoverGivesExpected(names: seq<string>, found: seq<Section>, sections: seq<Section>)
    requires SameSections(found, sections) && DistinctNames(sections)
    ensures var expected := Expected(names, sections);
            Recover(names, Collected(found)) == if SomeTooLong(expected) then Err(Oversized) else Ok(expected)
  {
    if names != [] {
      RecoverGivesExpected(names[1..], found, sections);
      CollectedByName(found, sections, Fold(names[0]));
      var rest := Expected(names[1..], sections);
      match BodyOf(sections, Fold(names[0])) {
        case Some(body) => TooLongCons(Recommendation(names[0], body), rest);
        case None => assert Expected(names, sections) == [] + rest == rest;
      }
    }
  }

  lemma TooLongCons(first: string, rest: seq<string>)
    ensures SomeTooLong([first] + rest) <==> |first| > MAX_CHANGE_CHARACTERS || SomeTooLong(rest)
  {
    var all := [first] + rest;
    if SomeTooLong(rest) {
      var k :| 0 <= k < |rest| && |rest[k]| > MAX_CHANGE_CHARACTERS;
      assert |all[k + 1]| > MAX_CHANGE_CHARACTERS;
    }
    if |first| > MAX_CHANGE_CHARACTERS {
      assert |all[0]| > MAX_CHANGE_CHARACTERS;
    }
  }

  lemma PrintedSectionsRecovered(names: seq<string>, preamble: string, sections: seq<Section>)
    requires NoHashLine(preamble, true) && (preamble == [] || preamble[|preamble| - 1] == '\n')
    requires DistinctNames(sections) && forall k :: 0 <= k < |sections| ==> GoodSection(sections[k])
    ensures var expected := Expected(names, sections);
            Recover(names, Collected(LayoutOf(preamble + Printed(sections), true).sections))
            == if SomeTooLong(expected) then Err(Oversized) else Ok(expected)
  {
    PrintedLayout(sections);
    PlainTextIsLead(preamble, true, Printed(sections));
    var found := LayoutOf(preamble + Printed(sections), true).sections;
    forall k | 0 <= k < |sections|
      ensures Trim(found[k].name) == sections[k].name && Trim(found[k].body) == sections[k].body != []
    {
      TrimFacts(sections[k].name);
      BetweenIsPlain(sections[k], k == |sections| - 1);
    }
    RecoverGivesExpected(names, found, sections);
  }

  /**
   A contract printed section by section comes back as the recommendations of exactly those of the
   named sections it has, in the order of the names, with their bodies verbatim. The runner's own
   list of names is SECTION_NAMES.
   */
  lemma PrintedContractsParseBack(names: seq<string>, preamble: string, sections: seq<Section>)
    requires NoHashLine(preamble, true) && (preamble == [] || preamble[|preamble| - 1] == '\n')
    requires DistinctNames(sections) && forall k :: 0 <= k < |sections| ==> GoodSection(sections[k])
    ensures var expected := Expected(names, sections);
            Recommendations(names, preamble + Printed(sections))
            == if SomeTooLong(expected) then Err(Oversized)
               else if expected == [] then Err(Unrecoverable)
               else Ok(expected)
  {
    PrintedSectionsRecovered(names, preamble, sections);
  }
}
