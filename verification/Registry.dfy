/**
 The registry of prompt evaluations: registration, status, updates, and the pruning that
 keeps the registry below its cap.
 */
module Registry {
  import opened Wrappers
  import opened Order

  const MAX_PROMPT_EVALUATIONS: nat := 256
  const RETENTION_SECONDS: real := 3600.0

  type RequestId = string

  datatype Status = Queued | Running | Complete | Failed

  /** What a job body returns: it names the request and the prompt hash it was computed for. */
  datatype Evaluation = Evaluation(requestId: RequestId, promptHash: string, verdict: string)

  datatype Record = Record(
    promptHash: string,
    status: Status,
    updatedAt: real,
    result: Option<Evaluation>,
    error: Option<string>)

  /** The keyword arguments of an update: each kind of write overwrites only its own fields. */
  datatype Patch = MarkRunning | MarkComplete(evaluation: Evaluation) | MarkFailed(message: string)

  type Evaluations = map<RequestId, Record>

  predicate Terminal(r: Record) {
    r.status == Complete || r.status == Failed
  }

  predicate Expired(r: Record, now: real) {
    Terminal(r) && now - r.updatedAt >= RETENTION_SECONDS
  }

  /** The order of the tuples (updatedAt, request_id). */
  predicate Before(m: Evaluations, a: RequestId, b: RequestId)
    requires a in m && b in m
  {
    m[a].updatedAt < m[b].updatedAt || (m[a].updatedAt == m[b].updatedAt && LexLess(a, b))
  }

  // ----- What pruning means

  ghost predicate HasTerminal(m: Evaluations) {
    exists x :: x in m && Terminal(m[x])
  }

  ghost predicate IsOldest(m: Evaluations, x: RequestId) {
    && x in m && Terminal(m[x])
    && forall y :: y in m && Terminal(m[y]) && y != x ==> Before(m, x, y)
  }

  ghost function Oldest(m: Evaluations): (x: RequestId)
    requires HasTerminal(m)
    ensures IsOldest(m, x)
  {
    var terminal := set x | x in m && Terminal(m[x]);
    assert terminal != {} by { var y :| y in m && Terminal(m[y]); assert y in terminal; }
    OldestExists(m, terminal);
    var o :| o in terminal && forall y :: y in terminal && y != o ==> Before(m, o, y);
    assert IsOldest(m, o);
    var x :| IsOldest(m, x);
    x
  }

  lemma {:induction false} OldestExists(m: Evaluations, s: set<RequestId>)
    requires s != {} && s <= m.Keys && forall x :: x in s ==> Terminal(m[x])
    ensures exists x :: x in s && forall y :: y in s && y != x ==> Before(m, x, y)
    decreases |s|
  {
    var a :| a in s;
    var rest := s - {a};
    if rest == {} {
      assert forall y :: y in s ==> y == a || y in rest;
      assert a in s && forall y :: y in s && y != a ==> Before(m, a, y);
    } else {
      OldestExists(m, rest);
      var b :| b in rest && forall y :: y in rest && y != b ==> Before(m, b, y);
      var x := if Before(m, a, b) then a else b;
      OlderOfTwo(m, s, a, b, x);
    }
  }

  lemma OlderOfTwo(m: Evaluations, s: set<RequestId>, a: RequestId, b: RequestId, x: RequestId)
    requires s <= m.Keys && a in s && b in s && a != b
    requires forall y :: y in s && y != a && y != b ==> Before(m, b, y)
    requires x == if Before(m, a, b) then a else b
    ensures forall y :: y in s && y != x ==> Before(m, x, y)
  {
    BeforeTotal(m, a, b);
    forall y | y in s && y != x ensures Before(m, x, y) {
      if x == a && y != b {
        BeforeTransitive(m, a, b, y);
      }
    }
  }

  lemma BeforeTotal(m: Evaluations, a: RequestId, b: RequestId)
    requires a in m && b in m && a != b
    ensures Before(m, a, b) <==> !Before(m, b, a)
  {
    LexTrichotomy(a, b);
  }

  lemma BeforeTransitive(m: Evaluations, a: RequestId, b: RequestId, c: RequestId)
    requires a in m && b in m && c in m && Before(m, a, b) && Before(m, b, c)
    ensures Before(m, a, c)
  {
    if m[a].updatedAt == m[b].updatedAt == m[c].updatedAt {
      LexTransitive(a, b, c);
    }
  }

  ghost function Unexpired(m: Evaluations, now: real): Evaluations {
    map x | x in m && !Expired(m[x], now) :: m[x]
  }

  /** Evicts the oldest terminal record, one at a time, while the registry is full. */
  ghost function EvictOldest(m: Evaluations): Evaluations
    decreases |m|
  {
    if |m| < MAX_PROMPT_EVALUATIONS || !HasTerminal(m) then m
    else
      assert |m - {Oldest(m)}| == |m| - 1 by { RemoveOne(m, Oldest(m)); }
      EvictOldest(m - {Oldest(m)})
  }

  lemma RemoveOne(m: Evaluations, x: RequestId)
    requires x in m
    ensures |m - {x}| == |m| - 1
  {
    assert (m - {x}).Keys == m.Keys - {x};
    assert |m.Keys| == |m| && |(m - {x}).Keys| == |m - {x}|;
  }

  ghost function Pruned(m: Evaluations, now: real): Evaluations {
    EvictOldest(Unexpired(m, now))
  }

  /** `kept` is `all` minus some of its oldest terminal records, and no more than had to go. */
  ghost predicate MinimalEviction(all: Evaluations, kept: Evaluations) {
    && kept.Keys <= all.Keys
    && (forall x :: x in kept ==> kept[x] == all[x])
    && (forall x :: x in all && !Terminal(all[x]) ==> x in kept)
    && (forall x, y :: x in all && x !in kept && y in kept && Terminal(all[y]) ==> Before(all, x, y))
    && (|kept| < MAX_PROMPT_EVALUATIONS || !HasTerminal(kept))
    && (kept != all ==> |kept| + 1 >= MAX_PROMPT_EVALUATIONS)
  }

  lemma {:induction false} EvictionIsMinimal(m: Evaluations)
    ensures MinimalEviction(m, EvictOldest(m))
    decreases |m|
  {
    if |m| >= MAX_PROMPT_EVALUATIONS && HasTerminal(m) {
      var x := Oldest(m);
      RemoveOne(m, x);
      EvictionIsMinimal(m - {x});
      OneMoreEviction(m, x, EvictOldest(m - {x}));
    }
  }

  lemma OneMoreEviction(m: Evaluations, x: RequestId, kept: Evaluations)
    requires |m| >= MAX_PROMPT_EVALUATIONS && IsOldest(m, x) && MinimalEviction(m - {x}, kept)
    ensures MinimalEviction(m, kept)
  {
    RemoveOne(m, x);
    var rest := m - {x};
    forall a, b | a in m && a !in kept && b in kept && Terminal(m[b]) ensures Before(m, a, b) {
      assert b in rest && rest[b] == m[b];
      if a != x {
        assert a in rest && Before(rest, a, b);
      }
    }
  }

  /** The clauses of `MinimalEviction` leave no choice: one registry satisfies them. */
  lemma MinimalEvictionIsUnique(all: Evaluations, a: Evaluations, b: Evaluations)
    requires MinimalEviction(all, a) && MinimalEviction(all, b)
    ensures a == b
  {
    if a.Keys == b.Keys {
    } else if !(a.Keys <= b.Keys) {
      SmallerEviction(all, b, a);
    } else {
      SmallerEviction(all, a, b);
    }
  }

  lemma SmallerEviction(all: Evaluations, small: Evaluations, large: Evaluations)
    requires MinimalEviction(all, small) && MinimalEviction(all, large)
    ensures large.Keys <= small.Keys
  {
    if x :| x in large && x !in small {
      assert Terminal(all[x]);
      forall y | y in small ensures y in large {
        if y !in large {
          assert Before(all, y, x) && Before(all, x, y);
          BeforeTotal(all, x, y);
        }
      }
      CardinalitySubset(small.Keys, large.Keys - {x});
      RemoveOne(large, x);
      assert false;
    }
  }

  lemma {:induction false} CardinalitySubset<T>(a: set<T>, b: set<T>)
    requires a <= b
    ensures |a| <= |b|
  {
    if a != {} {
      var x :| x in a;
      CardinalitySubset(a - {x}, b - {x});
    }
  }

  predicate Settled(r: Record) { r.status == Complete || r.status == Failed }

  /** The update time decides, and between equal times the id. */
  predicate OlderThan(m: Evaluations, a: RequestId, b: RequestId)
    requires a in m && b in m
  {
    m[a].updatedAt < m[b].updatedAt || (m[a].updatedAt == m[b].updatedAt && LexLess(a, b))
  }

  /** Pruning, said without an algorithm. What stays is as it was; what goes had settled and either was an
      hour old, or was older than all settled ones that stay while one record more would fill the registry. */
  lemma PruningKeepsLiveWork(m: Evaluations, now: real)
    ensures var r := Pruned(m, now);
            && (forall x :: x in r ==> x in m && r[x] == m[x])
            && (forall x :: x in r && Settled(m[x]) ==> now - m[x].updatedAt < 3_600.0)
            && (forall x :: x in m && x !in r ==> Settled(m[x]))
            && (forall x, y :: x in m && x !in r && now - m[x].updatedAt < 3_600.0 && y in r && Settled(m[y]) ==>
                  OlderThan(m, x, y))
            && (forall x :: x in m && x !in r && now - m[x].updatedAt < 3_600.0 ==> |r| >= 255)
            && (|r| < 256 || forall x :: x in r ==> !Settled(r[x]))
  {
    EvictionIsMinimal(Unexpired(m, now));
    assert forall x :: x in m && (!Terminal(m[x]) || now - m[x].updatedAt < 3_600.0) ==> x in Unexpired(m, now);
  }

  // ----- Registration and updates, as functions on the registry

  ghost function RegisteredIn(m: Evaluations, id: RequestId, hash: string, now: real): (Evaluations, bool) {
    var p := Pruned(m, now);
    if id in p then (p, p[id].promptHash == hash)
    else if |p| >= MAX_PROMPT_EVALUATIONS then (p, false)
    else (p[id := Record(hash, Queued, now, None, None)], true)
  }

  function Patched(r: Record, patch: Patch, now: real): Record {
    match patch
    case MarkRunning => r.(status := Running, updatedAt := now)
    case MarkComplete(e) => r.(status := Complete, result := Some(e), updatedAt := now)
    case MarkFailed(m) => r.(status := Failed, error := Some(m), updatedAt := now)
  }

  function UpdatedIn(m: Evaluations, id: RequestId, patch: Patch, now: real): Evaluations {
    if id in m then m[id := Patched(m[id], patch, now)] else m
  }

  /** How a record `r` comes out of a write: stamped, with its hash, its new status and what came with it. */
  predicate Written(r: Record, w: Record, patch: Patch, now: real) {
    && w.updatedAt == now && w.promptHash == r.promptHash
    && (patch.MarkRunning? ==> w.status == Running && w.result == r.result && w.error == r.error)
    && (patch.MarkComplete? ==> w.status == Complete && w.result == Some(patch.evaluation) && w.error == r.error)
    && (patch.MarkFailed? ==> w.status == Failed && w.error == Some(patch.message) && w.result == r.result)
  }

  lemma UpdateWrites(m: Evaluations, id: RequestId, patch: Patch, now: real)
    ensures var u := UpdatedIn(m, id, patch, now);
            && u.Keys == m.Keys
            && (forall x :: x in m && x != id ==> u[x] == m[x])
            && (id in m ==> Written(m[id], u[id], patch, now))
  {
  }

  lemma RegistrationRespectsCap(m: Evaluations, id: RequestId, hash: string, now: real)
    requires |m| <= 256
    ensures |RegisteredIn(m, id, hash, now).0| <= 256
  {
    PruningKeepsLiveWork(m, now);
    var p := Pruned(m, now);
    CardinalitySubset(p.Keys, m.Keys);
    assert |p| == |p.Keys| && |m| == |m.Keys|;
    if id !in p {
      var q := p[id := Record(hash, Queued, now, None, None)];
      assert q.Keys == p.Keys + {id};
      assert |q| == |q.Keys|;
    }
  }

  // ----- The dictionary itself

  ghost predicate IsTerminalOrder(m: Evaluations, order: seq<RequestId>) {
    && (forall x :: x in order <==> x in m && Terminal(m[x]))
    && Ascending(m, order)
  }

  ghost predicate Ascending(m: Evaluations, order: seq<RequestId>) {
    && (forall i :: 0 <= i < |order| ==> order[i] in m)
    && (forall i, j :: 0 <= i < j < |order| ==> Before(m, order[i], order[j]))
  }

  function Insert(m: Evaluations, x: RequestId, order: seq<RequestId>): (r: seq<RequestId>)
    requires x in m && forall y :: y in order ==> y in m
    ensures forall y :: y in r <==> y == x || y in order
  {
    if order == [] then [x]
    else if Before(m, x, order[0]) then [x] + order
    else
      assert forall y :: y in order <==> y == order[0] || y in order[1..];
      [order[0]] + Insert(m, x, order[1..])
  }

  lemma {:induction false} InsertKeepsAscending(m: Evaluations, x: RequestId, order: seq<RequestId>)
    requires x in m && x !in order && Ascending(m, order) && forall y :: y in order ==> y in m
    ensures Ascending(m, Insert(m, x, order))
  {
    if order == [] {
    } else if Before(m, x, order[0]) {
      forall j | 0 <= j < |order| ensures Before(m, x, order[j]) {
        if j > 0 {
          BeforeTransitive(m, x, order[0], order[j]);
        }
      }
    } else {
      BeforeTotal(m, x, order[0]);
      InsertKeepsAscending(m, x, order[1..]);
      var rest := Insert(m, x, order[1..]);
      forall j | 0 <= j < |rest| ensures Before(m, order[0], rest[j]) {
        assert rest[j] in rest;
        if rest[j] != x {
          var k :| 0 <= k < |order[1..]| && order[1..][k] == rest[j];
          assert order[k + 1] == rest[j];
        }
      }
    }
  }

  class EvaluationRegistry {
    var evaluations: Evaluations

    constructor ()
      ensures evaluations == map[]
    {
      evaluations := map[];
    }

    /** The sorted list of terminal records. */
    method SortedTerminal() returns (order: seq<RequestId>)
      ensures IsTerminalOrder(evaluations, order)
    {
      order := [];
      var todo := set x | x in evaluations && Terminal(evaluations[x]);
      var done: set<RequestId> := {};
      while todo != {}
        invariant todo !! done
        invariant forall x :: x in todo + done <==> x in evaluations && Terminal(evaluations[x])
        invariant forall x :: x in order <==> x in done
        invariant Ascending(evaluations, order)
      {
        var x :| x in todo;
        InsertKeepsAscending(evaluations, x, order);
        order := Insert(evaluations, x, order);
        todo, done := todo - {x}, done + {x};
      }
    }

    method Prune(now: real)
      modifies this
      ensures evaluations == Pruned(old(evaluations), now)
    {
      var m0 := evaluations;
      var expired := set x | x in evaluations && Expired(evaluations[x], now);
      while expired != {}
        invariant evaluations == map x | x in m0 && (x in expired || !Expired(m0[x], now)) :: m0[x]
        invariant forall x :: x in expired ==> x in m0 && Expired(m0[x], now)
      {
        var x :| x in expired;
        evaluations := evaluations - {x};
        expired := expired - {x};
      }
      assert evaluations == Unexpired(m0, now);
      if |evaluations| < MAX_PROMPT_EVALUATIONS {
        return;
      }
      var terminal := SortedTerminal();
      var i := 0;
      while i < |terminal|
        invariant 0 <= i <= |terminal|
        invariant |evaluations| >= MAX_PROMPT_EVALUATIONS
        invariant IsTerminalOrder(evaluations, terminal[i..])
        invariant EvictOldest(evaluations) == Pruned(m0, now)
      {
        var x := terminal[i];
        FirstIsOldest(evaluations, terminal[i..]);
        RemoveOne(evaluations, x);
        PopKeepsOrder(evaluations, terminal[i..]);
        evaluations := evaluations - {x};
        i := i + 1;
        if |evaluations| < MAX_PROMPT_EVALUATIONS {
          break;
        }
      }
    }

    method Register(id: RequestId, hash: string, now: real) returns (accepted: bool)
      modifies this
      ensures (evaluations, accepted) == RegisteredIn(old(evaluations), id, hash, now)
      ensures var kept := Pruned(old(evaluations), now);
              if id in kept then evaluations == kept && accepted == (kept[id].promptHash == hash)
              else if |kept| < 256 then
                accepted && evaluations == kept[id := Record(hash, Queued, now, None, None)]
              else !accepted && evaluations == kept
    {
      Prune(now);
      if id in evaluations {
        return evaluations[id].promptHash == hash;
      }
      if |evaluations| >= MAX_PROMPT_EVALUATIONS {
        return false;
      }
      evaluations := evaluations[id := Record(hash, Queued, now, None, None)];
      return true;
    }

    method Status(id: RequestId, hash: string) returns (r: Option<Record>)
      ensures r.Some? <==> id in evaluations && evaluations[id].promptHash == hash
      ensures r.Some? ==> r.value == evaluations[id]
    {
      if id !in evaluations || evaluations[id].promptHash != hash {
        return None;
      }
      return Some(evaluations[id]);
    }

    method Update(id: RequestId, patch: Patch, now: real)
      modifies this
      ensures evaluations == UpdatedIn(old(evaluations), id, patch, now)
      ensures evaluations.Keys == old(evaluations).Keys
      ensures forall x :: x in evaluations && x != id ==> evaluations[x] == old(evaluations)[x]
      ensures id in evaluations ==> Written(old(evaluations)[id], evaluations[id], patch, now)
    {
      if id !in evaluations {
        return;
      }
      evaluations := evaluations[id := Patched(evaluations[id], patch, now)];
    }
  }

  lemma FirstIsOldest(m: Evaluations, order: seq<RequestId>)
    requires IsTerminalOrder(m, order) && order != []
    ensures HasTerminal(m) && Oldest(m) == order[0]
  {
    assert order[0] in order;
    var x := Oldest(m);
    if x != order[0] {
      var k :| 0 <= k < |order| && order[k] == x;
      BeforeTotal(m, order[0], x);
    }
  }

  lemma PopKeepsOrder(m: Evaluations, order: seq<RequestId>)
    requires IsTerminalOrder(m, order) && order != []
    ensures IsTerminalOrder(m - {order[0]}, order[1..])
  {
    var m' := m - {order[0]};
    var rest := order[1..];
    forall x | x in rest ensures x in m' && Terminal(m'[x]) {
      var k :| 0 <= k < |rest| && rest[k] == x;
      assert order[k + 1] == x;
      if x == order[0] {
        LexTrichotomy(x, x);
      }
    }
    forall x | x in m' && Terminal(m'[x]) ensures x in rest {
      assert x in order;
    }
    assert forall i :: 0 <= i < |rest| ==> rest[i] == order[i + 1] && rest[i] in rest;
  }
}
