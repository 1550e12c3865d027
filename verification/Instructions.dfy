/**
 Splitting a numbered list of change instructions into its items, in the runner and in the panel
 that shows the same text. Digits and white space are ASCII.
 */
module Instructions {
  import opened Sequences
  import opened Wrappers
  import opened Text

  // ----- White space

  /** The length of the longest prefix without white space. */
  function WordLength(s: string): (n: nat)
    ensures n <= |s| && (n < |s| ==> IsSpace(s[n]))
    ensures forall k :: 0 <= k < n ==> !IsSpace(s[k])
  {
    if s == [] || IsSpace(s[0]) then 0 else 1 + WordLength(s[1..])
  }

  /** The first word of a text. */
  function FirstWord(s: string): string { TrimStart(s)[..WordLength(TrimStart(s))] }

  /** What follows the first word of a text. */
  function AfterFirstWord(s: string): string { TrimStart(s)[WordLength(TrimStart(s))..] }

  function Words(s: string): seq<string>
    decreases |s|
  {
    if TrimStart(s) == [] then [] else [FirstWord(s)] + Words(AfterFirstWord(s))
  }

  /** The words of the text, one space apart. */
  function Compact(s: string): string { Join(Words(s), ' ') }

  /** Every white-space character is a single space with a character before the next one. */
  ghost predicate Spaced(s: string) {
    forall i :: 0 <= i < |s| && IsSpace(s[i]) ==> s[i] == ' ' && (i + 1 < |s| ==> !IsSpace(s[i + 1]))
  }

  ghost predicate IsCompact(s: string) { Trimmed(s) && Spaced(s) }

  lemma SpacedConcat(a: string, b: string)
    requires Spaced(a) && Spaced(b)
    requires a != [] && b != [] ==> !IsSpace(a[|a| - 1]) || !IsSpace(b[0])
    ensures Spaced(a + b)
  {
    var s := a + b;
    forall i | 0 <= i < |s| && IsSpace(s[i])
      ensures s[i] == ' ' && (i + 1 < |s| ==> !IsSpace(s[i + 1]))
    {
      if i >= |a| {
        assert s[i] == b[i - |a|];
      }
    }
  }

  lemma CompactStep(s: string)
    requires TrimStart(s) != []
    ensures var w, rest := FirstWord(s), AfterFirstWord(s);
            && IsWord(w) && |rest| < |s|
            && Words(s) == [w] + Words(rest)
            && Compact(s) == if Words(rest) == [] then w else w + [' '] + Compact(rest)
  {
    var w, rest := FirstWord(s), AfterFirstWord(s);
    assert Words(s) == [w] + Words(rest);
    JoinCons(w, Words(rest), ' ');
    FirstWordIsWord(s);
  }

  lemma FirstWordIsWord(s: string)
    requires TrimStart(s) != []
    ensures IsWord(FirstWord(s)) && |AfterFirstWord(s)| < |s|
  {
    assert !IsSpace(TrimStart(s)[0]);
  }

  ghost predicate IsWord(w: string) { w != [] && forall k :: 0 <= k < |w| ==> !IsSpace(w[k]) }

  lemma {:induction false} CompactIsCompact(s: string)
    ensures IsCompact(Compact(s))
    ensures Words(s) == [] <==> Compact(s) == []
    ensures Words(s) == [] <==> TrimStart(s) == []
    decreases |s|
  {
    if TrimStart(s) != [] {
      CompactStep(s);
      var w, rest := FirstWord(s), AfterFirstWord(s);
      CompactIsCompact(rest);
      if Words(rest) != [] {
        OneSpaceBetween(w, Compact(rest));
      }
    }
  }

  lemma OneSpaceBetween(a: string, b: string)
    requires a != [] && b != [] && IsCompact(a) && IsCompact(b)
    ensures IsCompact(a + [' '] + b)
  {
    SpacedConcat(a, [' ']);
    SpacedConcat(a + [' '], b);
    assert (a + [' '] + b)[0] == a[0] && (a + [' '] + b)[|a + [' '] + b| - 1] == b[|b| - 1];
  }

  lemma SpacedSuffix(s: string, n: nat)
    requires n <= |s| && Spaced(s) && EndsWell(s)
    ensures Spaced(s[n..]) && EndsWell(s[n..])
  {
    var t := s[n..];
    forall i | 0 <= i < |t| && IsSpace(t[i]) ensures t[i] == ' ' && (i + 1 < |t| ==> !IsSpace(t[i + 1])) {
      assert t[i] == s[n + i];
    }
  }

  ghost predicate EndsWell(s: string) { s == [] || !IsSpace(s[|s| - 1]) }

  lemma {:induction false} CompactFixed(s: string)
    requires IsCompact(s)
    ensures Compact(s) == s
    decreases |s|
  {
    if s != [] {
      CompactStep(s);
      var w, rest := FirstWord(s), AfterFirstWord(s);
      CompactFront(s);
      if rest != [] {
        var next := rest[1..];
        CompactFixed(next);
        CompactIsCompact(next);
        SkipSpace(next);
        assert Words(rest) == Words(next);
      }
    }
  }

  lemma {:induction false} FrontAt(s: string, n: nat)
    requires IsCompact(s) && n <= |s| && (n < |s| ==> IsSpace(s[n]))
    ensures s == s[..n] + s[n..]
    ensures n < |s| ==> s[n] == ' ' && n + 1 < |s| && IsCompact(s[n + 1..]) && s[n..] == [' '] + s[n + 1..]
                        && s[n..][1..] == s[n + 1..] && s == s[..n] + [' '] + s[n + 1..]
  {
    Rejoin(s, n);
    if n < |s| {
      SpaceThenWord(s, n);
      AsCons(s[n..]);
      Assoc(s[..n], [' '], s[n + 1..]);
    }
  }

  lemma {:induction false} CompactStarts(s: string)
    requires IsCompact(s)
    ensures TrimStart(s) == s
  {
  }

  /** A compact text is one word, or a word, a space and a compact text. */
  lemma {:induction false} CompactFront(s: string)
    requires IsCompact(s) && s != []
    ensures var w, rest := FirstWord(s), AfterFirstWord(s);
            && s == w + rest
            && (rest == [] || (rest[0] == ' ' && rest[1..] != [] && IsCompact(rest[1..]) && rest == [' '] + rest[1..]
                               && s == w + [' '] + rest[1..]))
  {
    CompactStarts(s);
    FrontAt(s, WordLength(s));
  }

  lemma SkipSpace(s: string)
    ensures Words([' '] + s) == Words(s)
  {
    assert ([' '] + s)[1..] == s;
    assert TrimStart([' '] + s) == TrimStart(s);
  }

  lemma SpaceThenWord(s: string, n: nat)
    requires IsCompact(s) && n < |s| && IsSpace(s[n])
    ensures s[n] == ' ' && n + 1 < |s| && IsCompact(s[n + 1..])
  {
    SpacedSuffix(s, n + 1);
  }

  // ----- Markers

  function DigitCount(s: string): (n: nat)
    ensures n <= |s|
  {
    if s == [] || !IsDigit(s[0]) then 0 else 1 + DigitCount(s[1..])
  }

  function SpaceCount(s: string): (n: nat)
    ensures n <= |s|
  {
    if s == [] || !IsSpace(s[0]) then 0 else 1 + SpaceCount(s[1..])
  }

  predicate Opens(c: char) { 'A' <= c <= 'Z' || c == '"' || c == '\'' }

  /** Digits, a full stop and white space, with an opening character after them. */
  function NumberLength(s: string): (n: Option<nat>)
    ensures n.Some? ==> 0 < n.value < |s| && IsDigit(s[0]) && Opens(s[n.value])
  {
    var d := DigitCount(s);
    if d == 0 || d == |s| || s[d] != '.' then None
    else
      var w := SpaceCount(s[d + 1..]);
      var n := d + 1 + w;
      if w == 0 || n == |s| || !Opens(s[n]) then None else Some(n)
  }

  /** The length of a marker at the front of `s`; only the start of the text needs no space before it. */
  function MarkerLength(s: string, atStart: bool): (n: Option<nat>)
    ensures n.Some? ==> 0 < n.value < |s| && Opens(s[n.value])
    ensures n.Some? && !atStart ==> IsSpace(s[0])
  {
    if s == [] then None
    else if atStart && IsDigit(s[0]) then NumberLength(s)
    else if IsSpace(s[0]) then
      match NumberLength(s[1..])
      case Some(n) => Some(n + 1)
      case None => None
    else None
  }

  ghost predicate AllOf(s: string, from: int, to: int, kind: char -> bool) {
    0 <= from <= to <= |s| && forall k :: from <= k < to ==> kind(s[k])
  }

  /** `p` characters of white space, `d` digits, a full stop and `w` characters of white space, before a
      capital or a quote: one of white space in front, or none at the start of the text. */
  ghost predicate IsMarker(s: string, atStart: bool, p: int, d: int, w: int) {
    && (p == 1 || (p == 0 && atStart)) && 1 <= d && 1 <= w && p + d + 1 + w < |s|
    && AllOf(s, 0, p, IsSpace) && AllOf(s, p, p + d, IsDigit) && s[p + d] == '.'
    && AllOf(s, p + d + 1, p + d + 1 + w, IsSpace)
    && var c := s[p + d + 1 + w]; ('A' <= c <= 'Z' || c == '"' || c == '\'')
  }

  lemma {:induction false} CountFacts(s: string)
    ensures var d := DigitCount(s); AllOf(s, 0, d, IsDigit) && (d < |s| ==> !IsDigit(s[d]))
    ensures var w := SpaceCount(s); AllOf(s, 0, w, IsSpace) && (w < |s| ==> !IsSpace(s[w]))
  {
    if s != [] {
      CountFacts(s[1..]);
    }
  }

  ghost predicate IsNumberAt(s: string, d: int, w: int) {
    && 1 <= d && 1 <= w && d + 1 + w < |s| && AllOf(s, 0, d, IsDigit) && s[d] == '.' && AllOf(s, d + 1, d + 1 + w, IsSpace)
    && var c := s[d + 1 + w]; ('A' <= c <= 'Z' || c == '"' || c == '\'')
  }

  lemma NumberMeaning(s: string, n: nat)
    ensures NumberLength(s) == Some(n) <==> exists d, w :: IsNumberAt(s, d, w) && n == d + 1 + w
  {
    var d := DigitCount(s);
    CountFacts(s);
    if d < |s| {
      var u := s[d + 1..];
      CountFacts(u);
      var w := SpaceCount(u);
      assert forall k :: 0 <= k < |u| ==> u[k] == s[d + 1 + k];
      forall k | d + 1 <= k < d + 1 + w ensures IsSpace(s[k]) {
        assert u[k - d - 1] == s[k];
      }
      if NumberLength(s) == Some(n) {
        assert IsNumberAt(s, d, w);
      }
      forall e, v | IsNumberAt(s, e, v) ensures e == d && v == w && NumberLength(s) == Some(d + 1 + w) {
        NumberIsUnique(s, d, e, v);
      }
    }
  }

  lemma NumberIsUnique(s: string, d: nat, e: int, v: int)
    requires d == DigitCount(s) && d < |s| && IsNumberAt(s, e, v)
    ensures e == d && v == SpaceCount(s[d + 1..])
  {
    CountFacts(s);
    assert !IsDigit('.');
    var u := s[d + 1..];
    CountFacts(u);
    assert forall k :: 0 <= k < |u| ==> u[k] == s[d + 1 + k];
  }

  /** What is found as a marker is exactly what the expression describes. */
  lemma MarkerMeaning(s: string, atStart: bool, n: nat)
    ensures MarkerLength(s, atStart) == Some(n)
       <==> exists p, d, w :: IsMarker(s, atStart, p, d, w) && n == p + d + 1 + w
  {
    if s != [] {
      var rest := s[1..];
      NumberMeaning(s, n);
      if n > 0 {
        NumberMeaning(rest, n - 1);
      }
      forall d, w ensures IsSpace(s[0]) && IsNumberAt(rest, d, w) <==> IsMarker(s, atStart, 1, d, w) {
        Shifted(s, d, w);
      }
      assert forall d, w :: IsMarker(s, true, 0, d, w) <==> IsNumberAt(s, d, w);
    }
  }

  lemma Shifted(s: string, d: int, w: int)
    requires s != []
    ensures IsSpace(s[0]) && IsNumberAt(s[1..], d, w) <==> IsMarker(s, false, 1, d, w)
  {
    var rest := s[1..];
    assert forall k :: 0 <= k < |rest| ==> rest[k] == s[k + 1];
    if IsMarker(s, false, 1, d, w) {
      assert forall k :: 0 <= k < d ==> rest[k] == s[k + 1] && IsDigit(s[k + 1]);
      assert forall k :: d + 1 <= k < d + 1 + w ==> rest[k] == s[k + 1] && IsSpace(s[k + 1]);
      assert rest[d + 1 + w] == s[1 + d + 1 + w];
    }
    if IsSpace(s[0]) && IsNumberAt(rest, d, w) {
      assert forall k :: 1 <= k < 1 + d ==> s[k] == rest[k - 1];
      assert forall k :: d + 2 <= k < d + 2 + w ==> s[k] == rest[k - 1];
      assert rest[d + 1 + w] == s[1 + d + 1 + w];
    }
  }

  datatype Item = Item(marker: string, body: string)

  /** What stands before the first marker, and each marker with the text up to the next one. */
  datatype Cut = Cut(lead: string, items: seq<Item>)

  function Markers(s: string, atStart: bool): Cut
    decreases |s|
  {
    if s == [] then Cut([], [])
    else match MarkerLength(s, atStart)
      case Some(n) =>
        var rest := Markers(s[n..], false);
        Cut([], [Item(s[..n], rest.lead)] + rest.items)
      case None =>
        var rest := Markers(s[1..], false);
        Cut([s[0]] + rest.lead, rest.items)
  }

  function KeepNonEmpty(parts: seq<string>): seq<string> {
    if parts == [] then []
    else (if parts[0] == [] then [] else [parts[0]]) + KeepNonEmpty(parts[1..])
  }

  /** A marker was found and the first one stands at the very start. */
  predicate Numbered(cut: Cut) { cut.items != [] && cut.lead == [] }

  // ----- The runner

  function Bodies(items: seq<Item>): seq<string> {
    if items == [] then [] else [Trim(items[0].body)] + Bodies(items[1..])
  }

  function SplitInstructions(instruction: string): seq<string> {
    var compact := Compact(instruction);
    if compact == [] then []
    else
      var cut := Markers(compact, true);
      if !Numbered(cut) then [compact] else KeepNonEmpty(Bodies(cut.items))
  }

  // ----- The panel

  function Collapse(s: string): string
    decreases |s|
  {
    if s == [] then []
    else if IsSpace(s[0]) then [' '] + Collapse(TrimStart(s))
    else [s[0]] + Collapse(s[1..])
  }

  /** The marker's first group: the white space it starts with, if any. */
  function Group(marker: string): string {
    if marker != [] && IsSpace(marker[0]) then [marker[0]] else []
  }

  /** A content runs up to the number of the next marker. */
  function Contents(items: seq<Item>): seq<string> {
    if items == [] then []
    else if |items| == 1 then [Trim(items[0].body)]
    else [Trim(items[0].body + Group(items[1].marker))] + Contents(items[1..])
  }

  function SplitChanges(change: string): seq<string> {
    ContentsOf(Markers(Collapse(Trim(change)), true))
  }

  function ContentsOf(cut: Cut): seq<string> {
    if cut.items == [] then []
    else if |cut.lead| + |Group(cut.items[0].marker)| != 0 then []
    else KeepNonEmpty(Contents(cut.items))
  }

  // ----- Markers lose nothing

  function Reassembled(cut: Cut): string { cut.lead + ReassembledItems(cut.items) }

  function ReassembledItems(items: seq<Item>): string {
    if items == [] then [] else items[0].marker + items[0].body + ReassembledItems(items[1..])
  }

  lemma {:induction false} MarkersLoseNothing(s: string, atStart: bool)
    ensures Reassembled(Markers(s, atStart)) == s
    decreases |s|
  {
    if s != [] {
      match MarkerLength(s, atStart)
      case Some(n) =>
        MarkersLoseNothing(s[n..], false);
        var rest := Markers(s[n..], false);
        ConsParts(Item(s[..n], rest.lead), rest.items);
        Assoc(s[..n], rest.lead, ReassembledItems(rest.items));
        Rejoin(s, n);
      case None =>
        MarkersLoseNothing(s[1..], false);
        var rest := Markers(s[1..], false);
        Assoc([s[0]], rest.lead, ReassembledItems(rest.items));
        AsCons(s);
    }
  }

  /** An item's text as it appears in compact text: trimmed, compact, and opened by its first character. */
  ghost predicate GoodBody(b: string) { b != [] && IsCompact(b) && Opens(b[0]) }

  /** How the cut of a compact text begins. */
  ghost predicate WellCut(s: string, atStart: bool, cut: Cut) {
    && Spaced(cut.lead) && EndsWell(cut.lead)
    && (s != [] && MarkerLength(s, atStart).None? ==> cut.lead != [] && cut.lead[0] == s[0])
    && (cut.lead == [] && s != [] ==>
          && cut.items != [] && cut.items[0].marker != [] && cut.items[0].marker[0] == s[0]
          && (!atStart ==> IsSpace(s[0])))
    && (cut.lead != [] && cut.items != [] ==> cut.items[0].marker != [] && IsSpace(cut.items[0].marker[0]))
    && GoodItems(cut.items)
  }

  ghost predicate GoodItems(items: seq<Item>) {
    && (forall k :: 0 <= k < |items| ==> GoodBody(items[k].body))
    && (forall k :: 1 <= k < |items| ==> items[k].marker != [] && IsSpace(items[k].marker[0]))
  }

  lemma {:induction false} CompactTextHasGoodBodies(s: string, atStart: bool)
    requires Spaced(s) && EndsWell(s)
    ensures WellCut(s, atStart, Markers(s, atStart))
    decreases |s|
  {
    if s != [] {
      match MarkerLength(s, atStart)
      case Some(n) =>
        SpacedSuffix(s, n);
        CompactTextHasGoodBodies(s[n..], false);
        MarkerStep(s, atStart, n, Markers(s[n..], false));
      case None =>
        SpacedSuffix(s, 1);
        CompactTextHasGoodBodies(s[1..], false);
        CharacterStep(s, atStart, Markers(s[1..], false));
    }
  }

  lemma MarkerStep(s: string, atStart: bool, n: nat, rest: Cut)
    requires MarkerLength(s, atStart) == Some(n) && WellCut(s[n..], false, rest)
    ensures WellCut(s, atStart, Cut([], [Item(s[..n], rest.lead)] + rest.items))
  {
    assert Opens(s[n]) && s[n..][0] == s[n];
    assert MarkerLength(s[n..], false).None?;
    assert GoodBody(rest.lead);
    assert s[..n][0] == s[0];
  }

  lemma CharacterStep(s: string, atStart: bool, rest: Cut)
    requires s != [] && MarkerLength(s, atStart).None? && Spaced(s) && EndsWell(s) && WellCut(s[1..], false, rest)
    requires s[1..] == [] ==> rest == Cut([], [])
    ensures WellCut(s, atStart, Cut([s[0]] + rest.lead, rest.items))
  {
    if rest.lead == [] {
      if s[1..] != [] {
        assert IsSpace(s[1]) && !IsSpace(s[0]);
      }
    } else {
      assert s[1..] != [];
      if MarkerLength(s[1..], false).None? {
        assert rest.lead[0] == s[1];
      }
      SpacedConcat([s[0]], rest.lead);
    }
  }

  function RawBodies(items: seq<Item>): seq<string> {
    if items == [] then [] else [items[0].body] + RawBodies(items[1..])
  }

  lemma {:induction false} GoodBodiesSurvive(items: seq<Item>)
    requires forall k :: 0 <= k < |items| ==> GoodBody(items[k].body)
    ensures KeepNonEmpty(Bodies(items)) == RawBodies(items)
    ensures |RawBodies(items)| == |items| && forall k :: 0 <= k < |items| ==> RawBodies(items)[k] == items[k].body
  {
    if items != [] {
      GoodBodiesSurvive(items[1..]);
      TrimFacts(items[0].body);
      assert Bodies(items)[1..] == Bodies(items[1..]);
    }
  }

  /** The text between the markers is what comes out, untouched. */
  lemma NumberedSplit(instruction: string)
    requires Numbered(Markers(Compact(instruction), true))
    ensures var items := Markers(Compact(instruction), true).items;
            && SplitInstructions(instruction) == RawBodies(items)
            && |RawBodies(items)| == |items|
            && forall k :: 0 <= k < |items| ==> RawBodies(items)[k] == items[k].body && GoodBody(items[k].body)
  {
    CompactIsCompact(instruction);
    CompactTextHasGoodBodies(Compact(instruction), true);
    GoodBodiesSurvive(Markers(Compact(instruction), true).items);
  }

  function Interleaved(markers: seq<string>, bodies: seq<string>): string
    requires |markers| == |bodies|
  {
    if markers == [] then [] else markers[0] + bodies[0] + Interleaved(markers[1..], bodies[1..])
  }

  function MarkerTexts(items: seq<Item>): (r: seq<string>)
    ensures |r| == |items|
  {
    if items == [] then [] else [items[0].marker] + MarkerTexts(items[1..])
  }

  lemma {:induction false} InterleavedIsReassembled(items: seq<Item>)
    ensures |RawBodies(items)| == |items|
    ensures Interleaved(MarkerTexts(items), RawBodies(items)) == ReassembledItems(items)
  {
    if items != [] {
      InterleavedIsReassembled(items[1..]);
      assert MarkerTexts(items)[1..] == MarkerTexts(items[1..]);
      assert RawBodies(items)[1..] == RawBodies(items[1..]);
    }
  }

  /** Splitting is lossless: the markers and the pieces give the compacted text back. */
  lemma SplittingIsLossless(instruction: string)
    ensures var pieces := SplitInstructions(instruction);
            var compact := Compact(instruction);
            var cut := Markers(compact, true);
            if Numbered(cut) then
              |pieces| == |cut.items| && Interleaved(MarkerTexts(cut.items), pieces) == compact
            else
              pieces == (if compact == [] then [] else [compact])
  {
    var compact := Compact(instruction);
    if Numbered(Markers(compact, true)) {
      NumberedSplit(instruction);
      MarkersLoseNothing(compact, true);
      InterleavedIsReassembled(Markers(compact, true).items);
    }
  }

  lemma {:induction false} GoodItemsGiveGoodBodies(items: seq<Item>)
    requires forall k :: 0 <= k < |items| ==> GoodBody(items[k].body)
    ensures forall p :: p in RawBodies(items) ==> GoodBody(p)
  {
    if items != [] {
      GoodItemsGiveGoodBodies(items[1..]);
    }
  }

  /** A piece of a numbered text is compact and begins with an opening character. */
  lemma NumberedPiecesAreGood(instruction: string, piece: string)
    requires Numbered(Markers(Compact(instruction), true)) && piece in SplitInstructions(instruction)
    ensures GoodBody(piece)
  {
    NumberedSplit(instruction);
    GoodItemsGiveGoodBodies(Markers(Compact(instruction), true).items);
  }

  /** Splitting is stable: a piece is never empty and is not split again. */
  lemma SplittingIsStable(instruction: string, piece: string)
    requires piece in SplitInstructions(instruction)
    ensures piece != [] && SplitInstructions(piece) == [piece]
  {
    if Numbered(Markers(Compact(instruction), true)) {
      NumberedPiecesAreGood(instruction, piece);
      CompactFixed(piece);
      OpenedTextIsNotNumbered(piece);
    } else {
      CompactIsCompact(instruction);
      CompactFixed(piece);
    }
  }

  lemma OpenedTextIsNotNumbered(s: string)
    requires s != [] && Opens(s[0])
    ensures !Numbered(Markers(s, true))
  {
    assert MarkerLength(s, true).None?;
  }

  // ----- Printing a numbered list and splitting it

  function Listed(numbers: seq<string>, bodies: seq<string>, first: bool): string
    requires |numbers| == |bodies|
  {
    if bodies == [] then []
    else (if first then [] else [' ']) + numbers[0] + ". " + bodies[0] + Listed(numbers[1..], bodies[1..], false)
  }

  ghost predicate IsNumber(n: string) { n != [] && forall k :: 0 <= k < |n| ==> IsDigit(n[k]) }

  /** No marker begins inside the text. */
  ghost predicate MarkerFree(b: string) {
    forall k :: 0 <= k < |b| ==> MarkerLength(b[k..], false).None?
  }

  ghost predicate Printable(numbers: seq<string>, bodies: seq<string>) {
    && |numbers| == |bodies|
    && (forall k :: 0 <= k < |bodies| ==> IsNumber(numbers[k]) && GoodBody(bodies[k]) && MarkerFree(bodies[k]))
  }

  lemma {:induction false} DigitsThen(n: string, rest: string)
    requires forall k :: 0 <= k < |n| ==> IsDigit(n[k])
    requires rest == [] || !IsDigit(rest[0])
    ensures DigitCount(n + rest) == |n|
  {
    if n != [] {
      assert (n + rest)[1..] == n[1..] + rest;
      DigitsThen(n[1..], rest);
    } else {
      assert n + rest == rest;
    }
  }

  lemma NumberThenBody(n: string, b: string, rest: string)
    requires IsNumber(n) && b != [] && Opens(b[0])
    ensures NumberLength(n + ". " + b + rest) == Some(|n| + 2)
  {
    var s := n + ". " + b + rest;
    assert s == n + (". " + b + rest);
    DigitsThen(n, ". " + b + rest);
    assert s[|n|] == '.' && s[|n| + 1..] == [' '] + (b + rest);
    assert ([' '] + (b + rest))[1..] == b + rest;
    assert SpaceCount(b + rest) == 0;
    assert SpaceCount([' '] + (b + rest)) == 1;
    assert s[|n| + 2] == b[0];
  }

  lemma {:induction false} CountsStop(b: string, rest: string)
    requires rest == [] || rest[0] == ' '
    ensures DigitCount(b + rest) == DigitCount(b)
    ensures EndsWell(b) && b != [] ==> SpaceCount(b + rest) == SpaceCount(b) && SpaceCount(b) < |b|
  {
    if b == [] {
      assert b + rest == rest;
    } else {
      assert (b + rest)[1..] == b[1..] + rest;
      CountsStop(b[1..], rest);
    }
  }

  /** What follows a body cannot complete a marker that the body begins. */
  lemma NoMarkerAcross(b: string, rest: string)
    requires EndsWell(b) && b != []
    requires rest == [] || (|rest| >= 2 && rest[0] == ' ' && IsDigit(rest[1]))
    requires MarkerLength(b, false).None?
    ensures MarkerLength(b + rest, false).None?
  {
    if IsSpace(b[0]) {
      assert (b + rest)[1..] == b[1..] + rest;
      NoNumberAcross(b[1..], rest);
    }
  }

  lemma NoNumberAcross(b: string, rest: string)
    requires EndsWell(b) && b != []
    requires rest == [] || (|rest| >= 2 && rest[0] == ' ' && IsDigit(rest[1]))
    requires NumberLength(b).None?
    ensures NumberLength(b + rest).None?
  {
    CountsStop(b, rest);
    var d := DigitCount(b);
    if 0 < d < |b| && b[d] == '.' {
      var u := b[d + 1..];
      DropWithin(b, rest, d + 1);
      if u == [] {
        AfterFullStop(rest);
      } else {
        CountsStop(u, rest);
        assert u[SpaceCount(u)] == b[d + 1 + SpaceCount(u)];
      }
    }
  }

  lemma AfterFullStop(rest: string)
    requires rest == [] || (|rest| >= 2 && rest[0] == ' ' && IsDigit(rest[1]))
    ensures [] + rest == rest && (rest != [] ==> SpaceCount(rest) == 1)
  {
    if rest != [] {
      assert rest[1..][0] == rest[1];
    }
  }

  lemma {:induction false} BodyIsLead(b: string, rest: string)
    requires EndsWell(b) && MarkerFree(b)
    requires rest == [] || (|rest| >= 2 && rest[0] == ' ' && IsDigit(rest[1]) && Markers(rest, false).lead == [])
    ensures Markers(b + rest, false) == Cut(b, Markers(rest, false).items)
  {
    if b == [] {
      assert b + rest == rest;
    } else {
      assert b[0..] == b;
      NoMarkerAcross(b, rest);
      assert (b + rest)[1..] == b[1..] + rest;
      forall k | 0 <= k < |b[1..]| ensures MarkerLength(b[1..][k..], false).None? {
        assert b[1..][k..] == b[k + 1..];
      }
      BodyIsLead(b[1..], rest);
      assert b == [b[0]] + b[1..];
    }
  }

  lemma ListedCons(numbers: seq<string>, bodies: seq<string>, first: bool)
    requires |numbers| == |bodies| && bodies != []
    ensures Listed(numbers, bodies, first)
            == Lead(numbers[0], first) + bodies[0] + Listed(numbers[1..], bodies[1..], false)
  {
  }

  function Lead(n: string, first: bool): string { (if first then [] else [' ']) + n + ". " }

  lemma {:induction false} ListedMarkers(numbers: seq<string>, bodies: seq<string>, first: bool)
    requires Printable(numbers, bodies)
    ensures var cut := Markers(Listed(numbers, bodies, first), first);
            cut.lead == [] && RawBodies(cut.items) == bodies
  {
    if bodies != [] {
      var rest := Listed(numbers[1..], bodies[1..], false);
      ListedMarkers(numbers[1..], bodies[1..], false);
      ListedStarts(numbers[1..], bodies[1..]);
      ListedCons(numbers, bodies, first);
      FirstMarker(numbers[0], bodies[0], rest, first);
      BodyIsLead(bodies[0], rest);
      FirstItem(Lead(numbers[0], first), bodies[0], rest, first);
      assert bodies == [bodies[0]] + bodies[1..];
    }
  }

  lemma FirstItem(marker: string, b: string, rest: string, first: bool)
    requires marker != [] && MarkerLength(marker + b + rest, first) == Some(|marker|)
    requires Markers(b + rest, false) == Cut(b, Markers(rest, false).items)
    ensures var cut := Markers(marker + b + rest, first);
            cut.lead == [] && RawBodies(cut.items) == [b] + RawBodies(Markers(rest, false).items)
  {
    Assoc(marker, b, rest);
    Halves(marker, b + rest);
    ConsParts(Item(marker, b), Markers(rest, false).items);
  }

  lemma ListedStarts(numbers: seq<string>, bodies: seq<string>)
    requires Printable(numbers, bodies)
    ensures var rest := Listed(numbers, bodies, false);
            rest == [] || (|rest| >= 2 && rest[0] == ' ' && IsDigit(rest[1]))
  {
    if bodies != [] {
      assert IsDigit(numbers[0][0]);
    }
  }

  lemma FirstMarker(n: string, b: string, rest: string, first: bool)
    requires IsNumber(n) && b != [] && Opens(b[0])
    ensures MarkerLength(Lead(n, first) + b + rest, first) == Some(|Lead(n, first)|)
  {
    var t := n + ". " + b + rest;
    NumberThenBody(n, b, rest);
    assert IsDigit(n[0]) && t[0] == n[0];
    if first {
      assert [] + n + ". " + b + rest == t;
    } else {
      assert [' '] + n + ". " + b + rest == [' '] + t;
      assert ([' '] + t)[1..] == t;
    }
  }

  lemma ItemIsCompact(lead: string, n: string, b: string)
    requires IsNumber(n) && Spaced(b) && b != [] && !IsSpace(b[0]) && (lead == [] || lead == [' '])
    ensures Spaced(lead + n + ". " + b)
  {
    assert IsDigit(n[0]);
    SpacedConcat(lead, n);
    SpacedConcat(lead + n, ". ");
    SpacedConcat(lead + n + ". ", b);
  }

  lemma {:induction false} ListedIsCompact(numbers: seq<string>, bodies: seq<string>, first: bool)
    requires Printable(numbers, bodies)
    ensures var s := Listed(numbers, bodies, first);
            && Spaced(s) && EndsWell(s)
            && (bodies != [] ==> s != [] && (first ==> IsDigit(s[0])) && (!first ==> s[0] == ' '))
  {
    if bodies != [] {
      var n, b := numbers[0], bodies[0];
      var lead := if first then [] else [' '];
      ListedIsCompact(numbers[1..], bodies[1..], false);
      ItemIsCompact(lead, n, b);
      SpacedConcat(lead + n + ". " + b, Listed(numbers[1..], bodies[1..], false));
      assert IsDigit(n[0]);
    }
  }

  /** Printing compact, marker-free bodies as a numbered list and splitting it gives them back. */
  lemma PrintedListsSplitBack(numbers: seq<string>, bodies: seq<string>)
    requires Printable(numbers, bodies)
    ensures SplitInstructions(Listed(numbers, bodies, true)) == bodies
  {
    var s := Listed(numbers, bodies, true);
    ListedIsCompact(numbers, bodies, true);
    CompactFixed(s);
    if bodies != [] {
      ListedMarkers(numbers, bodies, true);
      NumberedSplit(s);
    }
  }

  // ----- The twin

  lemma {:induction false} TrimEndConcat(a: string, b: string)
    requires TrimEnd(b) != []
    ensures TrimEnd(a + b) == a + TrimEnd(b)
  {
    var s := a + b;
    if IsSpace(b[|b| - 1]) {
      assert s[..|s| - 1] == a + b[..|b| - 1];
      TrimEndConcat(a, b[..|b| - 1]);
    }
  }

  lemma {:induction false} TrimEndBlank(a: string, b: string)
    requires EndsWell(a) && TrimStart(b) == []
    ensures TrimEnd(a + b) == a
  {
    var s := a + b;
    if b == [] {
      assert s == a;
    } else {
      assert IsSpace(b[|b| - 1]);
      var front := b[..|b| - 1];
      assert s[..|s| - 1] == a + front;
      AllBlank(front);
      TrimEndBlank(a, front);
    }
  }

  lemma {:induction false} AllBlank(s: string)
    requires forall k :: 0 <= k < |s| ==> IsSpace(s[k])
    ensures TrimStart(s) == []
  {
    if s != [] {
      AllBlank(s[1..]);
    }
  }

  lemma {:induction false} CollapseWord(w: string, rest: string)
    requires forall k :: 0 <= k < |w| ==> !IsSpace(w[k])
    ensures Collapse(w + rest) == w + Collapse(rest)
  {
    if w == [] {
      assert w + rest == rest;
    } else {
      DropWithin(w, rest, 1);
      CollapseWord(w[1..], rest);
      AsCons(w);
      Assoc([w[0]], w[1..], Collapse(rest));
    }
  }

  lemma {:induction false} CollapseTrimmed(t: string)
    requires t == TrimStart(t)
    ensures Collapse(TrimEnd(t)) == Compact(t)
    decreases |t|
  {
    if t != [] {
      CompactStep(t);
      var w, rest := FirstWord(t), AfterFirstWord(t);
      var u := TrimStart(rest);
      Rejoin(t, WordLength(t));
      CompactIsCompact(rest);
      if u == [] {
        CollapseLast(w, rest);
      } else {
        CollapseTrimmed(u);
        assert Words(rest) == Words(u);
        CollapseRest(w, rest, u);
      }
    }
  }

  lemma CollapseLast(w: string, blank: string)
    requires IsWord(w) && TrimStart(blank) == []
    ensures Collapse(TrimEnd(w + blank)) == w
  {
    TrimEndBlank(w, blank);
    CollapseWord(w, []);
    NilUnit(w);
  }

  lemma BlankFront(rest: string)
    ensures var blank := rest[..|rest| - |TrimStart(rest)|];
            rest == blank + TrimStart(rest) && forall k :: 0 <= k < |blank| ==> IsSpace(blank[k])
  {
    Rejoin(rest, |rest| - |TrimStart(rest)|);
  }

  lemma TrimEndOfRest(w: string, blank: string, u: string)
    requires u != [] && !IsSpace(u[0])
    ensures TrimEnd(w + (blank + u)) == w + (blank + TrimEnd(u))
  {
    TrimEndOfOpened(u);
    TrimEndConcat(blank, u);
    TrimEndConcat(w, blank + u);
  }

  lemma CollapseRest(w: string, rest: string, u: string)
    requires IsWord(w) && u == TrimStart(rest) && u != [] && rest != [] && IsSpace(rest[0])
    ensures Collapse(TrimEnd(w + rest)) == w + [' '] + Collapse(TrimEnd(u))
  {
    var blank := rest[..|rest| - |u|];
    BlankFront(rest);
    TrimEndOfRest(w, blank, u);
    TrimEndOfOpened(u);
    CollapseBetween(w, blank, TrimEnd(u));
  }

  lemma CollapseBetween(w: string, blank: string, v: string)
    requires IsWord(w) && blank != [] && v != [] && !IsSpace(v[0])
    requires forall k :: 0 <= k < |blank| ==> IsSpace(blank[k])
    ensures Collapse(w + (blank + v)) == w + [' '] + Collapse(v)
  {
    CollapseWord(w, blank + v);
    TrimBlank(blank, v);
    assert (blank + v)[0] == blank[0];
    Assoc(w, [' '], Collapse(v));
  }

  lemma {:induction false} TrimEndOfOpened(u: string)
    requires u != [] && !IsSpace(u[0])
    ensures TrimEnd(u) != [] && TrimEnd(u)[0] == u[0]
  {
    if IsSpace(u[|u| - 1]) {
      TrimEndOfOpened(u[..|u| - 1]);
    }
  }

  lemma {:induction false} TrimBlank(blank: string, v: string)
    requires v != [] && !IsSpace(v[0]) && forall k :: 0 <= k < |blank| ==> IsSpace(blank[k])
    ensures TrimStart(blank + v) == v
  {
    if blank == [] {
      assert blank + v == v;
    } else {
      assert (blank + v)[1..] == blank[1..] + v;
      TrimBlank(blank[1..], v);
    }
  }

  /** Trimming and collapsing white space is joining the words by single spaces. */
  lemma BothProgramsCompactAlike(s: string)
    ensures Collapse(Trim(s)) == Compact(s)
  {
    var t := TrimStart(s);
    assert TrimStart(t) == t;
    CollapseTrimmed(t);
    assert Words(s) == Words(t);
  }

  lemma {:induction false} ContentsAreBodies(items: seq<Item>)
    requires GoodItems(items)
    ensures Contents(items) == Bodies(items)
  {
    if |items| > 1 {
      var b, c := items[0].body, items[1].marker[0];
      ContentsAreBodies(items[1..]);
      assert Group(items[1].marker) == [c];
      assert TrimStart([c]) == [] by { assert [c][1..] == []; }
      TrimEndBlank(b, [c]);
      assert TrimStart(b + [c]) == b + [c];
      TrimFacts(b);
    } else if |items| == 1 {
      assert Bodies(items[1..]) == [];
    }
  }

  lemma FirstGroupIsEmpty(compact: string, cut: Cut)
    requires Trimmed(compact) && compact != [] && WellCut(compact, true, cut) && Numbered(cut)
    ensures Group(cut.items[0].marker) == [] && GoodItems(cut.items)
  {
    assert cut.items[0].marker[0] == compact[0];
  }

  lemma ContentsOfNumbered(cut: Cut)
    requires Numbered(cut) && Group(cut.items[0].marker) == []
    ensures ContentsOf(cut) == KeepNonEmpty(Contents(cut.items))
  {
  }

  lemma ContentsOfOther(cut: Cut)
    requires !Numbered(cut)
    ensures ContentsOf(cut) == []
  {
  }

  /** The panel lists exactly the runner's pieces, and none where the runner does not split. */
  lemma TwinsAgree(text: string)
    ensures SplitChanges(text) == if Numbered(Markers(Compact(text), true)) then SplitInstructions(text) else []
  {
    var compact := Compact(text);
    var cut := Markers(compact, true);
    BothProgramsCompactAlike(text);
    CompactIsCompact(text);
    if Numbered(cut) {
      CompactTextHasGoodBodies(compact, true);
      FirstGroupIsEmpty(compact, cut);
      ContentsOfNumbered(cut);
      ContentsAreBodies(cut.items);
    } else {
      ContentsOfOther(cut);
    }
  }
}
