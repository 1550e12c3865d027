/**
 Scoping by path patterns: from the ticket's patterns through the profile's patterns to the
 monorepo root. `*` is the only wildcard and matches any characters, "/" included.
 */
module Scope {
  import opened Sequences
  import opened Wrappers
  import opened Order
  import opened Text
  import opened Paths
  import opened CanonicalLists

  // ----- Matching

  predicate Match(path: string, pattern: string)
    decreases |path| + |pattern|
  {
    if pattern == [] then path == []
    else if pattern[0] == '*' then Match(path, pattern[1..]) || (path != [] && Match(path[1..], pattern))
    else path != [] && path[0] == pattern[0] && Match(path[1..], pattern[1..])
  }

  /** A pattern put together matches exactly what its parts match, one after the other. */
  lemma {:induction false} MatchConcat(path: string, a: string, b: string)
    ensures Match(path, a + b) <==> exists i :: 0 <= i <= |path| && Match(path[..i], a) && Match(path[i..], b)
  {
    if Match(path, a + b) {
      var i := CutBetween(path, a, b);
    }
    forall i | 0 <= i <= |path| && Match(path[..i], a) && Match(path[i..], b) ensures Match(path, a + b) {
      MatchTogether(path[..i], path[i..], a, b);
      Rejoin(path, i);
    }
  }

  lemma {:induction false} CutBetween(path: string, a: string, b: string) returns (i: nat)
    requires Match(path, a + b)
    ensures i <= |path| && Match(path[..i], a) && Match(path[i..], b)
    decreases |path| + |a|
  {
    if a == [] {
      NilUnit(b);
      i := 0;
    } else {
      DropWithin(a, b, 1);
      if a[0] == '*' && Match(path, a[1..] + b) {
        i := CutBetween(path, a[1..], b);
      } else {
        var c := if a[0] == '*' then a else a[1..];
        var j := CutBetween(path[1..], c, b);
        i := j + 1;
        assert path[..i][1..] == path[1..][..j] && path[i..] == path[1..][j..];
      }
    }
  }

  lemma {:induction false} MatchTogether(x: string, y: string, a: string, b: string)
    requires Match(x, a) && Match(y, b)
    ensures Match(x + y, a + b)
    decreases |x| + |a|
  {
    if a == [] {
      NilUnit(y);
      NilUnit(b);
    } else {
      DropWithin(a, b, 1);
      if a[0] == '*' && Match(x, a[1..]) {
        MatchTogether(x, y, a[1..], b);
      } else {
        DropWithin(x, y, 1);
        MatchTogether(x[1..], y, if a[0] == '*' then a else a[1..], b);
      }
    }
  }

  lemma {:induction false} StarMatchesAll(path: string)
    ensures Match(path, ['*'])
  {
    assert ['*'][1..] == [];
    if path != [] {
      StarMatchesAll(path[1..]);
    }
  }

  /** Without a wildcard a pattern matches itself alone. */
  lemma {:induction false} LiteralMeaning(path: string, pattern: string)
    requires '*' !in pattern
    ensures Match(path, pattern) <==> path == pattern
  {
    if Match(path, pattern) {
      HeadIsFixed(path, pattern);
    } else if path == pattern {
      LiteralMatches(pattern);
    }
  }

  /** A wildcard stands for any stretch of the path, however long and whatever it holds. */
  lemma WildcardMeaning(path: string, p: string, q: string)
    ensures Match(path, p + ['*'] + q)
       <==> exists i, j :: 0 <= i <= j <= |path| && Match(path[..i], p) && Match(path[j..], q)
  {
    MatchConcat(path, p + ['*'], q);
    if Match(path, p + ['*'] + q) {
      var j :| 0 <= j <= |path| && Match(path[..j], p + ['*']) && Match(path[j..], q);
      MatchConcat(path[..j], p, ['*']);
      var i :| 0 <= i <= j && Match(path[..j][..i], p) && Match(path[..j][i..], ['*']);
      assert path[..j][..i] == path[..i];
    }
    forall i, j | 0 <= i <= j <= |path| && Match(path[..i], p) && Match(path[j..], q)
      ensures Match(path, p + ['*'] + q)
    {
      StarMatchesAll(path[..j][i..]);
      assert path[..j][..i] == path[..i];
      MatchConcat(path[..j], p, ['*']);
    }
  }

  predicate Permitted(path: string, patterns: seq<string>) {
    exists k :: 0 <= k < |patterns| && Match(path, patterns[k])
  }

  /** The pattern up to its first wildcard. */
  function Head(pattern: string): (h: string)
    ensures h <= pattern && '*' !in h
    ensures '*' !in pattern <==> h == pattern
    ensures h != pattern ==> pattern[|h|] == '*'
  {
    if pattern == [] || pattern[0] == '*' then []
    else
      assert pattern == [pattern[0]] + pattern[1..];
      [pattern[0]] + Head(pattern[1..])
  }

  lemma {:induction false} HeadIsUnique(h: string, pattern: string)
    requires h <= pattern && '*' !in h && (h == pattern || pattern[|h|] == '*')
    ensures Head(pattern) == h
  {
    if h != [] {
      assert h[0] in h;
      HeadIsUnique(h[1..], pattern[1..]);
      assert h == [h[0]] + h[1..];
    }
  }

  lemma {:induction false} HeadIsFixed(path: string, pattern: string)
    requires Match(path, pattern)
    ensures Head(pattern) <= path
    ensures '*' !in pattern ==> path == pattern
    decreases |pattern|
  {
    if pattern != [] && pattern[0] != '*' {
      HeadIsFixed(path[1..], pattern[1..]);
      assert pattern == [pattern[0]] + pattern[1..] && path == [path[0]] + path[1..];
    } else if pattern != [] {
      assert pattern[0] in pattern;
    }
  }

  function Erased(pattern: string): string {
    if pattern == [] then []
    else (if pattern[0] == '*' then [] else [pattern[0]]) + Erased(pattern[1..])
  }

  lemma {:induction false} ErasedMatches(pattern: string)
    ensures Match(Erased(pattern), pattern)
  {
    if pattern != [] {
      ErasedMatches(pattern[1..]);
      if pattern[0] == '*' {
        assert Erased(pattern) == Erased(pattern[1..]);
      } else {
        assert Erased(pattern)[1..] == Erased(pattern[1..]);
      }
    }
  }

  lemma {:induction false} MatchBehind(h: string, path: string, pattern: string)
    requires '*' !in h && Match(path, pattern)
    ensures Match(h + path, h + pattern)
  {
    if h == [] {
      assert h + path == path && h + pattern == pattern;
    } else {
      assert h[0] in h;
      MatchBehind(h[1..], path, pattern);
      assert (h + path)[1..] == h[1..] + path && (h + pattern)[1..] == h[1..] + pattern;
    }
  }

  /** Any character may stand at the first wildcard. */
  lemma Filled(pattern: string, c: char) returns (path: string)
    requires '*' in pattern
    ensures Match(path, pattern)
    ensures |path| > |Head(pattern)| && Head(pattern) <= path && path[|Head(pattern)|] == c
  {
    var h := Head(pattern);
    var rest := pattern[|h| + 1..];
    var tail := [c] + Erased(rest);
    ErasedMatches(rest);
    assert pattern == h + (['*'] + rest);
    assert (['*'] + rest)[1..] == rest && tail[1..] == Erased(rest);
    assert Match(Erased(rest), ['*'] + rest);
    assert Match(tail, ['*'] + rest);
    MatchBehind(h, tail, ['*'] + rest);
    path := h + tail;
  }

  // ----- Staying under a root

  predicate Under(root: string, path: string) {
    path == root || root + "/" <= path
  }

  ghost predicate AllUnder(root: string, pattern: string) {
    forall path :: Match(path, pattern) ==> Under(root, path)
  }

  /** The fixed part of the pattern already lies under the root. */
  predicate RootedHead(root: string, pattern: string) {
    root + "/" <= Head(pattern) || ('*' !in pattern && pattern == root)
  }

  lemma AllUnderIffRootedHead(root: string, pattern: string)
    ensures AllUnder(root, pattern) <==> RootedHead(root, pattern)
  {
    if RootedHead(root, pattern) {
      forall path | Match(path, pattern) ensures Under(root, path) {
        HeadIsFixed(path, pattern);
      }
    } else {
      var path := Outside(root, pattern);
    }
  }

  lemma Outside(root: string, pattern: string) returns (path: string)
    requires !RootedHead(root, pattern)
    ensures Match(path, pattern) && !Under(root, path)
  {
    var h, wall := Head(pattern), root + "/";
    if '*' !in pattern {
      path := pattern;
      LiteralMatches(pattern);
    } else {
      var c := if |h| < |wall| && wall[|h|] == 'x' then 'y' else 'x';
      path := Filled(pattern, c);
      if |h| < |root| {
        assert path[|h|] != root[|h|] && root[|h|] == wall[|h|];
      }
    }
  }

  lemma {:induction false} LiteralMatches(pattern: string)
    requires '*' !in pattern
    ensures Match(pattern, pattern)
  {
    MatchBehind(pattern, [], []);
    assert pattern + [] == pattern;
  }

  /** The ticket's patterns keep every permitted path under the root exactly if each of them is rooted. */
  lemma PermittedStayUnderIffRooted(root: string, tickets: seq<string>)
    ensures (forall path :: Permitted(path, tickets) ==> Under(root, path))
            <==> (forall k :: 0 <= k < |tickets| ==> RootedHead(root, tickets[k]))
  {
    forall k | 0 <= k < |tickets| ensures AllUnder(root, tickets[k]) <==> RootedHead(root, tickets[k]) {
      AllUnderIffRootedHead(root, tickets[k]);
    }
    if k :| 0 <= k < |tickets| && !AllUnder(root, tickets[k]) {
      var path :| Match(path, tickets[k]) && !Under(root, path);
      assert Permitted(path, tickets);
    }
  }

  // ----- One pattern narrower than another

  function StripSlashes(s: string): (r: string)
    ensures r <= s && (r == [] || r[|r| - 1] != '/')
    ensures forall k :: |r| <= k < |s| ==> s[k] == '/'
  {
    if s != [] && s[|s| - 1] == '/' then StripSlashes(s[..|s| - 1]) else s
  }

  /** The string ends with a slash and two wildcards. */
  predicate EndsInAnything(s: string) {
    |s| >= 3 && s[|s| - 3] == '/' && s[|s| - 2] == '*' && s[|s| - 1] == '*'
  }

  predicate Narrower(ticket: string, allowed: string) {
    if ticket == allowed || allowed == "**/*" then true
    else if '*' !in ticket && Match(ticket, allowed) then true
    else if EndsInAnything(allowed) then
      var allowedPrefix := StripSlashes(allowed[..|allowed| - 3]);
      var ticketPrefix := StripSlashes(Head(ticket));
      ticketPrefix == allowedPrefix || allowedPrefix + "/" <= ticketPrefix
    else false
  }

  /** `bare` is `s` without the slashes it ends in. */
  predicate WithoutSlashes(s: string, bare: string) {
    bare <= s && (bare != [] ==> bare[|bare| - 1] != '/') && forall k :: |bare| <= k < |s| ==> s[k] == '/'
  }

  lemma StrippedOnce(s: string, a: string, b: string)
    requires WithoutSlashes(s, a) && WithoutSlashes(s, b)
    ensures a == b
  {
    if a != [] {
      assert s[|a| - 1] != '/';
    }
    if b != [] {
      assert s[|b| - 1] != '/';
    }
  }

  /** The ticket's fixed part, without final slashes, is the allowed part before its final "/" and two
      wildcards, or lies below it. */
  ghost predicate HeadBelow(ticket: string, allowed: string) {
    exists p, bareTicket, bareAllowed ::
      && allowed == p + ['/', '*', '*'] && WithoutSlashes(p, bareAllowed) && WithoutSlashes(Head(ticket), bareTicket)
      && (bareTicket == bareAllowed || bareAllowed + ['/'] <= bareTicket)
  }

  /** When a ticket pattern is judged narrower: it is the allowed one, or everything is allowed, or it is a
      plain path the allowed pattern matches, or its fixed part lies below the allowed one's. */
  lemma NarrowerMeaning(ticket: string, allowed: string)
    ensures Narrower(ticket, allowed) <==>
            || ticket == allowed || allowed == "**/*"
            || ('*' !in ticket && Match(ticket, allowed))
            || HeadBelow(ticket, allowed)
  {
    if HeadBelow(ticket, allowed) {
      var p, bareTicket, bareAllowed :|
        && allowed == p + ['/', '*', '*'] && WithoutSlashes(p, bareAllowed) && WithoutSlashes(Head(ticket), bareTicket)
        && (bareTicket == bareAllowed || bareAllowed + ['/'] <= bareTicket);
      assert allowed[..|allowed| - 3] == p && EndsInAnything(allowed);
      StrippedOnce(p, StripSlashes(p), bareAllowed);
      StrippedOnce(Head(ticket), StripSlashes(Head(ticket)), bareTicket);
    }
    if EndsInAnything(allowed) {
      var p := allowed[..|allowed| - 3];
      assert allowed == p + ['/', '*', '*'];
      assert WithoutSlashes(p, StripSlashes(p)) && WithoutSlashes(Head(ticket), StripSlashes(Head(ticket)));
      assert (StripSlashes(Head(ticket)) == StripSlashes(p) || StripSlashes(p) + ['/'] <= StripSlashes(Head(ticket)))
             ==> HeadBelow(ticket, allowed);
    }
  }

  /** A root as normalisation leaves it, without wildcards. */
  predicate PlainRoot(root: string) {
    root != [] && root[|root| - 1] != '/' && '*' !in root
  }

  /** The wildcard follows the root's own characters instead of a "/". */
  predicate Overflows(root: string, pattern: string) {
    root + "*" <= pattern
  }

  lemma {:induction false} StrippedStaysUnder(root: string, q: string)
    requires PlainRoot(root) && root <= q && (q == root || q[|root|] == '/')
    ensures Under(root, StripSlashes(q))
  {
    if q == root {
    } else if q[|q| - 1] == '/' {
      StrippedStaysUnder(root, q[..|q| - 1]);
    } else {
      assert q[..|root| + 1] == root + "/";
    }
  }

  lemma {:induction false} WildcardsAreNotStripped(q: string)
    requires '*' in q
    ensures '*' in StripSlashes(q)
  {
    if q[|q| - 1] == '/' {
      assert q == q[..|q| - 1] + ['/'];
      WildcardsAreNotStripped(q[..|q| - 1]);
    }
  }

  lemma UnderTransitive(root: string, a: string, b: string)
    requires Under(root, a) && Under(a, b)
    ensures Under(root, b)
  {
  }

  /** Being narrower passes the root on, unless the ticket's wildcard overflows it. */
  lemma NarrowerStaysRooted(root: string, ticket: string, allowed: string)
    requires PlainRoot(root) && RootedHead(root, allowed)
    requires Narrower(ticket, allowed) && !Overflows(root, ticket)
    ensures RootedHead(root, ticket)
  {
    if ticket != allowed {
      NarrowerCases(ticket, allowed);
      if allowed == "**/*" {
        HeadIsUnique([], allowed);
      } else if '*' !in ticket && Match(ticket, allowed) {
        HeadIsFixed(ticket, allowed);
      } else {
        PrefixStaysRooted(root, ticket, allowed[..|allowed| - 3]);
      }
    }
  }

  lemma NarrowerCases(ticket: string, allowed: string)
    requires Narrower(ticket, allowed)
    ensures || ticket == allowed || allowed == "**/*"
            || ('*' !in ticket && Match(ticket, allowed))
            || (&& |allowed| >= 3 && allowed == allowed[..|allowed| - 3] + "/**"
                && Under(StripSlashes(allowed[..|allowed| - 3]), StripSlashes(Head(ticket))))
  {
    if EndsInAnything(allowed) {
      SplitBeforeAnything(allowed);
    }
  }

  lemma SplitBeforeAnything(allowed: string)
    requires EndsInAnything(allowed)
    ensures allowed == allowed[..|allowed| - 3] + "/**"
  {
  }

  lemma PrefixStaysRooted(root: string, ticket: string, q: string)
    requires PlainRoot(root) && RootedHead(root, q + "/**") && !Overflows(root, ticket)
    requires Under(StripSlashes(q), StripSlashes(Head(ticket)))
    ensures RootedHead(root, ticket)
  {
    var b := StripSlashes(Head(ticket));
    PrefixHasNoWildcard(q, Head(ticket));
    RootedPrefix(root, q);
    StrippedStaysUnder(root, q);
    UnderTransitive(root, StripSlashes(q), b);
    if b == root {
      RootItself(root, ticket);
    }
  }

  lemma RootedPrefix(root: string, q: string)
    requires PlainRoot(root) && '*' !in q && RootedHead(root, q + "/**")
    ensures root <= q && (q == root || q[|root|] == '/')
  {
    HeadOfPrefix(q, q + "/**");
    assert (q + "/**")[|q| + 1] == '*';
    assert (root + "/")[..|root|] == root && (q + "/")[..|q|] == q;
  }

  lemma PrefixMembers(a: string, b: string)
    requires a <= b
    ensures forall c :: c in a ==> c in b
  {
  }

  lemma PrefixHasNoWildcard(q: string, h: string)
    requires Under(StripSlashes(q), StripSlashes(h)) && '*' !in h
    ensures '*' !in q
  {
    PrefixMembers(StripSlashes(q), StripSlashes(h));
    PrefixMembers(StripSlashes(h), h);
    if '*' in q {
      WildcardsAreNotStripped(q);
    }
  }

  lemma RootItself(root: string, ticket: string)
    requires PlainRoot(root) && StripSlashes(Head(ticket)) == root && !Overflows(root, ticket)
    ensures RootedHead(root, ticket)
  {
    var h := Head(ticket);
    if h != root {
      assert h[..|root| + 1] == root + "/";
    } else if ticket != root {
      WildcardAtRoot(root, ticket);
    }
  }

  lemma WildcardAtRoot(root: string, ticket: string)
    requires Head(ticket) == root && ticket != root
    ensures Overflows(root, ticket)
  {
    assert ticket[..|root| + 1] == root + "*";
  }

  lemma HeadOfPrefix(q: string, allowed: string)
    requires '*' !in q && q + "/**" == allowed
    ensures Head(allowed) == q + "/"
  {
    HeadIsUnique(q + "/", allowed);
  }

  // ----- The accepted chain

  predicate AllNormalized(paths: seq<string>) {
    forall k :: 0 <= k < |paths| ==> SafeRelativePath(paths[k]) == Ok(paths[k])
  }

  predicate ProfilePathsAccepted(root: string, profile: seq<string>) {
    && AllNormalized(profile)
    && profile == SortBy(Distinct(profile), LexLess)
    && (root != "." ==> AllNarrower(profile, root + "/**"))
  }

  predicate AllNarrower(paths: seq<string>, allowed: string) {
    forall k :: 0 <= k < |paths| ==> Narrower(paths[k], allowed)
  }

  predicate TicketPathAccepted(profile: seq<string>, ticket: string) {
    SafeRelativePath(ticket).Ok? && NarrowerThanSome(SafeRelativePath(ticket).value, profile)
  }

  predicate NarrowerThanSome(ticket: string, profile: seq<string>) {
    exists k :: 0 <= k < |profile| && Narrower(ticket, profile[k])
  }

  /** What the validator demands of the root, of the profile's paths and of the ticket's paths. */
  predicate ScopeAccepted(root: string, profile: seq<string>, tickets: seq<string>) {
    && SafeRelativePath(root) == Ok(root)
    && ProfilePathsAccepted(root, profile)
    && forall k :: 0 <= k < |tickets| ==> TicketPathAccepted(profile, tickets[k])
  }

  datatype ScopeError = RootNotNormalized | ProfilePath(e: PathError) | ProfileNotNormalized | OutsideRoot
    | TicketPath(e: PathError) | TicketBroader

  /** The validator's own loops. */
  method ValidateScope(root: string, profile: seq<string>, tickets: seq<string>) returns (r: Result<(), ScopeError>)
    ensures r.Ok? <==> ScopeAccepted(root, profile, tickets)
  {
    if SafeRelativePath(root) != Ok(root) {
      return Err(RootNotNormalized);
    }
    r := ValidateProfilePaths(root, profile);
    if r.Ok? {
      r := ValidateTicketPaths(profile, tickets);
    }
  }

  method ValidateProfilePaths(root: string, profile: seq<string>) returns (r: Result<(), ScopeError>)
    ensures r.Ok? <==> ProfilePathsAccepted(root, profile)
  {
    var normalized := NormalizeAll(profile);
    if normalized.Err? {
      return Err(ProfilePath(normalized.error));
    }
    if normalized.value != profile || profile != SortBy(Distinct(profile), LexLess) {
      return Err(ProfileNotNormalized);
    }
    if root != "." {
      var inside := AllNarrowerThan(profile, root + "/**");
      if !inside {
        return Err(OutsideRoot);
      }
    }
    return Ok(());
  }

  method AllNarrowerThan(paths: seq<string>, allowed: string) returns (inside: bool)
    ensures inside <==> AllNarrower(paths, allowed)
  {
    for i := 0 to |paths|
      invariant forall k :: 0 <= k < i ==> Narrower(paths[k], allowed)
    {
      if !Narrower(paths[i], allowed) {
        return false;
      }
    }
    return true;
  }

  method NormalizeAll(paths: seq<string>) returns (r: Result<seq<string>, PathError>)
    ensures r == Ok(paths) <==> AllNormalized(paths)
  {
    var result := [];
    var i := 0;
    while i < |paths|
      invariant 0 <= i <= |paths| && |result| == i
      invariant forall k :: 0 <= k < i ==> SafeRelativePath(paths[k]) == Ok(result[k])
    {
      match SafeRelativePath(paths[i]) {
        case Err(e) => return Err(e);
        case Ok(path) => result := result + [path];
      }
      i := i + 1;
    }
    assert AllNormalized(paths) ==> result == paths;
    return Ok(result);
  }

  method ValidateTicketPaths(profile: seq<string>, tickets: seq<string>) returns (r: Result<(), ScopeError>)
    ensures r.Ok? <==> forall k :: 0 <= k < |tickets| ==> TicketPathAccepted(profile, tickets[k])
  {
    var i := 0;
    while i < |tickets|
      invariant 0 <= i <= |tickets|
      invariant forall k :: 0 <= k < i ==> TicketPathAccepted(profile, tickets[k])
    {
      match SafeRelativePath(tickets[i]) {
        case Err(e) => return Err(TicketPath(e));
        case Ok(path) =>
          if !NarrowerThanSome(path, profile) {
            return Err(TicketBroader);
          }
      }
      i := i + 1;
    }
    return Ok(());
  }

  /**
   The chain holds: under a wildcard-free root other than ".", if no pattern lets a wildcard run on
   from the root's own characters, every path the ticket permits is the root or lies below it.
   */
  lemma ScopeChain(root: string, profile: seq<string>, tickets: seq<string>, path: string)
    requires ScopeAccepted(root, profile, tickets) && root != "." && '*' !in root
    requires forall k :: 0 <= k < |profile| ==> !Overflows(root, profile[k])
    requires forall k :: 0 <= k < |tickets| ==> NormalForm(tickets[k]) && !Overflows(root, tickets[k])
    requires Permitted(path, tickets)
    ensures Under(root, path)
  {
    var k :| 0 <= k < |tickets| && Match(path, tickets[k]);
    AcceptedAsNormalizedIffNormalForm(tickets[k]);
    var l :| 0 <= l < |profile| && Narrower(tickets[k], profile[l]);
    NormalRootIsPlain(root);
    HeadOfPrefix(root, root + "/**");
    NarrowerStaysRooted(root, profile[l], root + "/**");
    NarrowerStaysRooted(root, tickets[k], profile[l]);
    AllUnderIffRootedHead(root, tickets[k]);
  }

  lemma NormalRootIsPlain(root: string)
    requires SafeRelativePath(root) == Ok(root) && root != "." && '*' !in root
    ensures PlainRoot(root)
  {
    AcceptedAsNormalizedIffNormalForm(root);
    if root[|root| - 1] == '/' {
      TrailingSlash(root);
    }
  }

  lemma {:induction false} TrailingSlash(s: string)
    requires s != [] && s[|s| - 1] == '/'
    ensures var parts := Split(s, '/'); |parts| >= 2 && parts[|parts| - 1] == [] && [] in parts
  {
    if |s| > 1 {
      TrailingSlash(s[1..]);
    }
    var parts := Split(s, '/');
    assert parts[|parts| - 1] in parts;
  }

  /** A first wildcard that starts a path segment does not overflow any root. */
  lemma SegmentWildcardsDoNotOverflow(root: string, pattern: string)
    requires PlainRoot(root)
    requires '*' in pattern ==> Head(pattern) == [] || Head(pattern)[|Head(pattern)| - 1] == '/'
    ensures !Overflows(root, pattern)
  {
    if Overflows(root, pattern) {
      assert pattern[|root|] == (root + "*")[|root|] == '*';
      HeadIsUnique(root, pattern);
      assert false;
    }
  }

  // ----- The conditions are needed

  // A root's name with a wildcard run on is judged narrower than the root, and permits its neighbours.
  lemma OverflowLeavesTheRoot(root: string)
    requires SafeRelativePath(root) == Ok(root) && PlainRoot(root) && root != "."
    requires SafeRelativePath(root + "*") == Ok(root + "*")
    ensures ScopeAccepted(root, [root + "*"], [root + "*"])
    ensures Permitted(root + "x", [root + "*"]) && !Under(root, root + "x")
  {
    var p := root + "*";
    OverflowIsNarrower(root);
    OwnPathAccepted(root, p, p);
    MatchesNeighbour(root);
    PermittedByOne(root + "x", p);
    Neighbour(root);
  }

  lemma Neighbour(root: string)
    ensures !Under(root, root + "x")
  {
    assert (root + "/")[|root|] == '/' && (root + "x")[|root|] == 'x';
  }

  lemma SingletonIsCanonical(p: string)
    ensures SortBy(Distinct([p]), LexLess) == [p]
  {
    LexIsStrictWeak();
    DistinctFacts([p]);
    SortedCopyIffNondecreasing([p], LexLess);
  }

  lemma OverflowIsNarrower(root: string)
    requires PlainRoot(root)
    ensures Narrower(root + "*", root + "/**")
  {
    var ticket, allowed := root + "*", root + "/**";
    assert ticket[|root|] == '*';
    HeadIsUnique(root, ticket);
    AllowedPrefix(root);
    NarrowerByPrefix(ticket, allowed);
  }

  lemma NarrowerByPrefix(ticket: string, allowed: string)
    requires EndsInAnything(allowed)
    requires Under(StripSlashes(allowed[..|allowed| - 3]), StripSlashes(Head(ticket)))
    ensures Narrower(ticket, allowed)
  {
  }

  lemma OwnPathAccepted(root: string, p: string, ticket: string)
    requires SafeRelativePath(root) == Ok(root) && SafeRelativePath(p) == Ok(p) && SafeRelativePath(ticket) == Ok(p)
    requires Narrower(p, root + "/**")
    ensures ScopeAccepted(root, [p], [ticket])
  {
    SingletonIsCanonical(p);
    assert [p][0] == p && Narrower(p, [p][0]);
    assert NarrowerThanSome(p, [p]);
    assert TicketPathAccepted([p], ticket);
    assert ProfilePathsAccepted(root, [p]);
  }

  lemma AllowedPrefix(root: string)
    requires PlainRoot(root)
    ensures EndsInAnything(root + "/**")
    ensures StripSlashes((root + "/**")[..|root + "/**"| - 3]) == root && StripSlashes(root) == root
  {
    assert (root + "/**")[..|root + "/**"| - 3] == root;
  }

  lemma MatchesNeighbour(root: string)
    requires '*' !in root
    ensures Match(root + "x", root + "*")
  {
    assert Match([], "*"[1..]) && "x"[1..] == [];
    assert Match("x"[1..], "*");
    assert Match("x", "*");
    MatchBehind(root, "x", "*");
  }

  /** The job is run with the ticket's patterns as sent: normalising may have changed their meaning. */
  lemma UnnormalizedTicketCanLeaveTheRoot(root: string)
    requires SafeRelativePath(root) == Ok(root) && PlainRoot(root) && root != "."
    requires SafeRelativePath(root + "/**") == Ok(root + "/**") && |root| + 4 <= MAX_PATH_CHARACTERS
    requires root[0] != ' '
    ensures ScopeAccepted(root, [root + "/**"], [" " + root + "/**"])
    ensures Permitted(" " + root + "/", [" " + root + "/**"]) && !Under(root, " " + root + "/")
  {
    var p := root + "/**";
    var ticket := " " + p;
    assert " " + root + "/**" == ticket;
    LeadingSpaceIsTrimmed(p);
    OwnPathAccepted(root, p, ticket);
    MatchesBelow(" " + root);
    PermittedByOne(" " + root + "/", ticket);
    NotUnder(root, " " + root + "/");
  }

  lemma NotUnder(root: string, path: string)
    requires root != [] && path != [] && root[0] != path[0]
    ensures !Under(root, path)
  {
    assert (root + "/")[0] == root[0];
  }

  lemma PermittedByOne(path: string, pattern: string)
    requires Match(path, pattern)
    ensures Permitted(path, [pattern])
  {
    assert Match(path, [pattern][0]);
  }

  lemma LeadingSpaceIsTrimmed(p: string)
    requires SafeRelativePath(p) == Ok(p) && |p| < MAX_PATH_CHARACTERS
    ensures SafeRelativePath(" " + p) == Ok(p)
  {
    assert (" " + p)[1..] == p;
    assert TrimStart(" " + p) == TrimStart(p);
  }

  /** What is permitted below a wildcard-free root is everything below it. */
  lemma PermittedBelow(root: string, path: string)
    requires '*' !in root
    ensures Match(path, root + "/**") <==> root + "/" <= path
  {
    var stars := ['*'] + ['*'];
    assert root + "/**" == root + "/" + stars;
    MatchConcat(path, root + "/", stars);
    forall i | 0 <= i <= |path| ensures Match(path[..i], root + "/") <==> path[..i] == root + "/" {
      LiteralMeaning(path[..i], root + "/");
    }
    if root + "/" <= path {
      var rest := path[|root + "/"|..];
      StarMatchesAll(rest);
      assert stars[1..] == ['*'];
      assert Match(rest, stars);
    }
  }

  lemma MatchesBelow(h: string)
    requires '*' !in h
    ensures Match(h + "/", h + "/**")
  {
    assert "**"[1..] == "*" && "*"[1..] == [];
    assert Match([], "*");
    assert Match([], "**");
    MatchBehind(h + "/", [], "**");
    assert (h + "/") + "**" == h + "/**" && (h + "/") + [] == h + "/";
  }

  lemma MatchesOneCharacter()
    ensures Match("x/", "*/**")
  {
    MatchesBelow([]);
    assert [] + "/" == "/" && [] + "/**" == "/**";
    assert "*/**"[1..] == "/**" && "x/"[1..] == "/";
    assert Match("/", "*/**");
  }

  lemma MatchesBeside(h: string)
    requires '*' !in h
    ensures Match(h + "x/", h + "*" + "/**")
  {
    MatchesOneCharacter();
    MatchBehind(h, "x/", "*/**");
    assert h + "*/**" == h + "*" + "/**";
  }

  lemma NextToWildcard(h: string)
    ensures !Under(h + "*", h + "x/")
  {
    assert (h + "*" + "/")[|h|] == '*' && (h + "*")[|h|] == '*' && (h + "x/")[|h|] == 'x';
  }

  // A root that itself holds a wildcard is a pattern too: everything below it is permitted for other names.
  lemma WildcardRootIsLeft(h: string)
    requires '*' !in h && SafeRelativePath(h + "*") == Ok(h + "*")
    requires SafeRelativePath(h + "*" + "/**") == Ok(h + "*" + "/**")
    ensures ScopeAccepted(h + "*", [h + "*" + "/**"], [h + "*" + "/**"])
    ensures Permitted(h + "x/", [h + "*" + "/**"]) && !Under(h + "*", h + "x/")
  {
    OwnPathAccepted(h + "*", h + "*" + "/**", h + "*" + "/**");
    MatchesBeside(h);
    PermittedByOne(h + "x/", h + "*" + "/**");
    NextToWildcard(h);
  }
}
