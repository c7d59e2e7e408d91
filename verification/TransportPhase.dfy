/**
 Which phase a transport failure belongs to: a bounded walk over an error, its causes and its
 aggregated errors, which may form a cycle.
 */
module TransportPhase {
  import opened Options

  datatype Value = Object(id: nat) | NotObject

  /** The parts of one error object the walk reads; `errors` is empty when it is not an array. */
  datatype Node = Node(code: Option<string>, syscall: Option<string>, errors: seq<Value>, cause: Value)

  /** Error objects by identity. An identity without an entry is an object that carries none of these parts. */
  type Graph = map<nat, Node>

  datatype Phase = Connect | Response

  const CONNECT_PHASE_CODES: set<string> := {
    "UND_ERR_CONNECT_TIMEOUT", "ECONNREFUSED", "EHOSTUNREACH", "ENETUNREACH", "EADDRNOTAVAIL", "ENOTFOUND",
    "EAI_AGAIN", "EAI_FAIL", "EAI_NONAME", "CERT_HAS_EXPIRED", "CERT_NOT_YET_VALID", "DEPTH_ZERO_SELF_SIGNED_CERT",
    "SELF_SIGNED_CERT_IN_CHAIN", "UNABLE_TO_VERIFY_LEAF_SIGNATURE", "UNABLE_TO_GET_ISSUER_CERT",
    "UNABLE_TO_GET_ISSUER_CERT_LOCALLY", "ERR_TLS_CERT_ALTNAME_INVALID", "ERR_TLS_HANDSHAKE_TIMEOUT",
    "ERR_SSL_WRONG_VERSION_NUMBER"
  }

  const CONNECT_PHASE_SYSCALLS: set<string> := {"connect", "getaddrinfo"}

  const OBJECT_LIMIT: nat := 16

  function At(g: Graph, id: nat): Node {
    if id in g then g[id] else Node(None, None, [], NotObject)
  }

  predicate Witness(n: Node) {
    || (n.syscall.Some? && n.syscall.value in CONNECT_PHASE_SYSCALLS)
    || (n.code.Some? && n.code.value in CONNECT_PHASE_CODES)
  }

  /** What inspecting one object pushes, in order. */
  function Links(n: Node): seq<Value> {
    n.errors + [n.cause]
  }

  // ----- the walk

  function Walk(g: Graph, pending: seq<Value>, seen: set<nat>): Phase
    requires |seen| <= OBJECT_LIMIT
    decreases OBJECT_LIMIT + 1 - |seen|, |pending|
  {
    if pending == [] then Response
    else
      var current, rest := pending[|pending| - 1], pending[..|pending| - 1];
      if current.NotObject? || current.id in seen then Walk(g, rest, seen)
      else if |seen| == OBJECT_LIMIT then Response
      else if Witness(At(g, current.id)) then Connect
      else Walk(g, rest + Links(At(g, current.id)), seen + {current.id})
  }

  function PhaseOf(g: Graph, error: Value): Phase {
    Walk(g, [error], {})
  }

  /** The loop as written: add to `seen` first, then give up past the limit. It ends on every graph. */
  method TransportFailurePhase(g: Graph, error: Value) returns (phase: Phase)
    ensures phase == PhaseOf(g, error)
  {
    var seen: set<nat> := {};
    var pending := [error];
    while |pending| > 0
      invariant |seen| <= OBJECT_LIMIT
      invariant Walk(g, pending, seen) == PhaseOf(g, error)
      decreases OBJECT_LIMIT + 1 - |seen|, |pending|
    {
      var current := pending[|pending| - 1];
      pending := pending[..|pending| - 1];
      ghost var rest := pending;
      if current.NotObject? || current.id in seen {
        continue;
      }
      seen := seen + {current.id};
      if |seen| > OBJECT_LIMIT {
        return Response;
      }
      var record := At(g, current.id);
      if record.syscall.Some? && record.syscall.value in CONNECT_PHASE_SYSCALLS {
        return Connect;
      }
      if record.code.Some? && record.code.value in CONNECT_PHASE_CODES {
        return Connect;
      }
      pending := pending + record.errors;
      pending := pending + [record.cause];
      assert pending == rest + Links(record);
    }
    return Response;
  }

  // ----- reachability

  /** One error leads to another as its cause or as one of its aggregated errors. */
  predicate LinksTo(n: Node, v: Value) {
    v == n.cause || v in n.errors
  }

  /** A chain of links from the error to an object. */
  predicate IsPath(g: Graph, error: Value, path: seq<nat>) {
    && path != [] && error == Object(path[0])
    && forall i | 0 <= i < |path| - 1 :: LinksTo(At(g, path[i]), Object(path[i + 1]))
  }

  predicate ReachesBy(g: Graph, error: Value, path: seq<nat>, x: nat) {
    IsPath(g, error, path) && path[|path| - 1] == x
  }

  ghost predicate Reachable(g: Graph, error: Value, x: nat) {
    exists path :: ReachesBy(g, error, path, x)
  }

  lemma ReachableLink(g: Graph, error: Value, x: nat, y: nat)
    requires Reachable(g, error, x) && Object(y) in Links(At(g, x))
    ensures Reachable(g, error, y)
  {
    var path :| ReachesBy(g, error, path, x);
    var longer := path + [y];
    forall i | 0 <= i < |longer| - 1
      ensures LinksTo(At(g, longer[i]), Object(longer[i + 1]))
    {
      if i < |path| - 1 {
        assert longer[i] == path[i] && longer[i + 1] == path[i + 1];
      }
    }
    assert ReachesBy(g, error, longer, y);
  }

  /** Every object of the walk is reachable, and every link out of an inspected object is inspected or pending. */
  ghost predicate WalkOk(g: Graph, error: Value, pending: seq<Value>, seen: set<nat>) {
    && (forall v | v in pending && v.Object? :: Reachable(g, error, v.id))
    && (forall x | x in seen :: Reachable(g, error, x) && !Witness(At(g, x)))
    && (forall x, v | x in seen && v in Links(At(g, x)) && v.Object? :: v.id in seen || v in pending)
    && (error.Object? ==> error.id in seen || error in pending)
  }

  ghost predicate NoWitness(g: Graph, error: Value) {
    forall x | Reachable(g, error, x) :: !Witness(At(g, x))
  }

  /** More objects are reachable than the walk will look at. */
  ghost predicate BeyondLimit(g: Graph, error: Value) {
    exists s: set<nat> :: |s| > 16 && forall x | x in s :: Reachable(g, error, x)
  }

  lemma {:induction false} ClosedCoversPath(g: Graph, error: Value, seen: set<nat>, path: seq<nat>)
    requires WalkOk(g, error, [], seen) && IsPath(g, error, path)
    ensures path[|path| - 1] in seen
    decreases |path|
  {
    if |path| > 1 {
      var front := path[..|path| - 1];
      assert forall i | 0 <= i < |front| - 1 :: front[i] == path[i] && LinksTo(At(g, front[i]), Object(front[i + 1]));
      ClosedCoversPath(g, error, seen, front);
      assert Object(path[|path| - 1]) in Links(At(g, path[|path| - 2]));
    }
  }

  lemma StepKeepsWalk(g: Graph, error: Value, pending: seq<Value>, seen: set<nat>, id: nat)
    requires WalkOk(g, error, pending, seen) && pending != [] && pending[|pending| - 1] == Object(id)
    requires id !in seen && !Witness(At(g, id))
    ensures WalkOk(g, error, pending[..|pending| - 1] + Links(At(g, id)), seen + {id})
  {
    var rest, links := pending[..|pending| - 1], Links(At(g, id));
    assert pending == rest + [Object(id)];
    forall v | v in rest + links && v.Object?
      ensures Reachable(g, error, v.id)
    {
      if v in links {
        assert pending[|pending| - 1] in pending;
        ReachableLink(g, error, id, v.id);
      }
    }
  }

  lemma NothingPendingIsEverything(g: Graph, error: Value, seen: set<nat>)
    requires WalkOk(g, error, [], seen)
    ensures NoWitness(g, error)
  {
    forall x | Reachable(g, error, x)
      ensures !Witness(At(g, x))
    {
      var path :| ReachesBy(g, error, path, x);
      ClosedCoversPath(g, error, seen, path);
    }
  }

  lemma DropKeepsWalk(g: Graph, error: Value, rest: seq<Value>, v: Value, seen: set<nat>)
    requires WalkOk(g, error, rest + [v], seen) && (v.NotObject? || v.id in seen)
    ensures WalkOk(g, error, rest, seen)
  {
    hide Reachable, Witness;
  }

  lemma {:induction false} WalkIsSound(g: Graph, error: Value, pending: seq<Value>, seen: set<nat>)
    requires |seen| <= OBJECT_LIMIT && WalkOk(g, error, pending, seen)
    ensures Walk(g, pending, seen) == Connect ==> exists x :: Reachable(g, error, x) && Witness(At(g, x))
    ensures Walk(g, pending, seen) == Response ==> NoWitness(g, error) || BeyondLimit(g, error)
    decreases OBJECT_LIMIT + 1 - |seen|, |pending|
  {
    hide Reachable, Witness, NoWitness;
    if pending == [] {
      NothingPendingIsEverything(g, error, seen);
    } else {
      var current, rest := pending[|pending| - 1], pending[..|pending| - 1];
      assert pending == rest + [current] && current in pending;
      if current.NotObject? || current.id in seen {
        DropKeepsWalk(g, error, rest, current, seen);
        WalkIsSound(g, error, rest, seen);
      } else if |seen| == OBJECT_LIMIT {
        assert |seen + {current.id}| == OBJECT_LIMIT + 1;
      } else if !Witness(At(g, current.id)) {
        StepKeepsWalk(g, error, pending, seen, current.id);
        WalkIsSound(g, error, rest + Links(At(g, current.id)), seen + {current.id});
      }
    }
  }

  /**
   The answer is `connect` only if a reachable object carries a connect witness; and if one does,
   it is found unless more than sixteen objects are reachable.
   */
  lemma PhaseIsExact(g: Graph, error: Value)
    ensures PhaseOf(g, error) == Connect ==> !NoWitness(g, error)
    ensures !NoWitness(g, error) && !BeyondLimit(g, error) ==> PhaseOf(g, error) == Connect
  {
    if error.Object? {
      assert ReachesBy(g, error, [error.id], error.id);
    }
    WalkIsSound(g, error, [error], {});
  }

  /** A connect failure names one of two system calls, or carries one of the codes. */
  lemma WitnessIff(n: Node)
    ensures Witness(n) <==>
            || n.syscall == Some("connect") || n.syscall == Some("getaddrinfo")
            || (n.code.Some? && n.code.value in CONNECT_PHASE_CODES)
  {
  }

  // ----- the walk is the head of a depth-first visit

  function Reverse(vs: seq<Value>): seq<Value> {
    if vs == [] then [] else Reverse(vs[1..]) + [vs[0]]
  }

  lemma {:induction false} ReverseAppend(a: seq<Value>, b: seq<Value>)
    ensures Reverse(a + b) == Reverse(b) + Reverse(a)
  {
    if a == [] {
      assert a + b == b && Reverse(b) + Reverse(a) == Reverse(b);
    } else {
      ReverseAppend(a[1..], b);
      assert (a + b)[1..] == a[1..] + b;
    }
  }

  /** What is visited below an error, in order: its cause, then its aggregated errors from the last to the first. */
  function Children(n: Node): seq<Value> {
    [n.cause] + Reverse(n.errors)
  }

  function Ids(order: seq<nat>): set<nat> {
    set x | x in order
  }

  lemma Shrinks(g: Graph, order: seq<nat>, longer: seq<nat>, id: nat)
    requires order + [id] <= longer && id in g && id !in order
    ensures |g.Keys - Ids(longer)| < |g.Keys - Ids(order)|
  {
    assert longer[|order|] == id;
    assert forall x | x in order :: x in longer by {
      assert forall i | 0 <= i < |order| :: order[i] == longer[i];
    }
    assert id in g.Keys - Ids(order) && id !in g.Keys - Ids(longer);
    assert g.Keys - Ids(longer) <= g.Keys - Ids(order);
    SmallerSet(g.Keys - Ids(longer), g.Keys - Ids(order));
  }

  lemma SmallerSet(a: set<nat>, b: set<nat>)
    requires a < b
    ensures |a| < |b|
  {
    assert |b| == |a| + |b - a| by {
      assert b == a + (b - a);
    }
  }

  /** Visit these in turn, each new object followed at once by everything new below it; `order` was visited before. */
  function Visit(g: Graph, vs: seq<Value>, order: seq<nat>): (r: seq<nat>)
    ensures order <= r
    decreases |g.Keys - Ids(order)|, |vs|
  {
    if vs == [] then order
    else if vs[0].NotObject? || vs[0].id in order then Visit(g, vs[1..], order)
    else if vs[0].id !in g then
      assert g.Keys - Ids(order + [vs[0].id]) == g.Keys - Ids(order);
      Visit(g, vs[1..], order + [vs[0].id])
    else
      Shrinks(g, order, order + [vs[0].id], vs[0].id);
      var below := Visit(g, Children(g[vs[0].id]), order + [vs[0].id]);
      Shrinks(g, order, below, vs[0].id);
      Visit(g, vs[1..], below)
  }

  /** The objects under an error in depth-first order. */
  function Preorder(g: Graph, error: Value): seq<nat> {
    Visit(g, [error], [])
  }

  lemma {:induction false} VisitAppend(g: Graph, a: seq<Value>, b: seq<Value>, order: seq<nat>)
    ensures Visit(g, a + b, order) == Visit(g, b, Visit(g, a, order))
    decreases |g.Keys - Ids(order)|, |a|
  {
    if a == [] {
      assert a + b == b;
    } else {
      assert (a + b)[0] == a[0] && (a + b)[1..] == a[1..] + b;
      if a[0].NotObject? || a[0].id in order {
        VisitAppend(g, a[1..], b, order);
      } else if a[0].id !in g {
        assert g.Keys - Ids(order + [a[0].id]) == g.Keys - Ids(order);
        VisitAppend(g, a[1..], b, order + [a[0].id]);
      } else {
        var below := Visit(g, Children(g[a[0].id]), order + [a[0].id]);
        Shrinks(g, order, below, a[0].id);
        VisitAppend(g, a[1..], b, below);
      }
    }
  }

  /** Inspecting an object and pushing its links is visiting its children before the rest. */
  lemma PushIsVisit(g: Graph, rest: seq<Value>, id: nat, order: seq<nat>)
    requires id !in order
    ensures Visit(g, Reverse(rest + [Object(id)]), order) ==
            Visit(g, Reverse(rest + Links(At(g, id))), order + [id])
  {
    hide Visit;
    var n, top := At(g, id), [Object(id)];
    ReverseAppend(rest, top);
    assert Reverse(top) == top;
    ReverseAppend(rest, Links(n));
    ReverseAppend(n.errors, [n.cause]);
    assert Reverse([n.cause]) == [n.cause];
    VisitAppend(g, top, Reverse(rest), order);
    VisitAppend(g, Children(n), Reverse(rest), order + [id]);
    VisitOne(g, id, order);
  }

  lemma VisitOne(g: Graph, id: nat, order: seq<nat>)
    requires id !in order
    ensures Visit(g, [Object(id)], order) == Visit(g, Children(At(g, id)), order + [id])
  {
    assert [Object(id)][1..] == [];
    if id !in g {
      var nothing := Children(At(g, id));
      assert nothing == [NotObject] && nothing[1..] == [];
    }
  }

  lemma SkipIsVisit(g: Graph, rest: seq<Value>, v: Value, order: seq<nat>)
    requires v.NotObject? || v.id in order
    ensures Visit(g, Reverse(rest + [v]), order) == Visit(g, Reverse(rest), order)
  {
    ReverseAppend(rest, [v]);
    assert Reverse([v]) == [v] && ([v] + Reverse(rest))[1..] == Reverse(rest);
  }

  /** Some object among positions `from` to 16 of the order is a connect failure. */
  predicate WitnessAmong(g: Graph, order: seq<nat>, from: nat) {
    exists k | from <= k < |order| && k < 16 :: Witness(At(g, order[k]))
  }

  lemma {:induction false} WalkIsVisit(g: Graph, pending: seq<Value>, order: seq<nat>)
    requires |Ids(order)| == |order| <= OBJECT_LIMIT
    ensures Walk(g, pending, Ids(order)) == Connect <==> WitnessAmong(g, Visit(g, Reverse(pending), order), |order|)
    decreases OBJECT_LIMIT - |order|, |pending|
  {
    hide Visit, Reverse, Witness;
    if pending == [] {
      VisitNothing(g, order);
    } else {
      var current, rest := pending[|pending| - 1], pending[..|pending| - 1];
      assert pending == rest + [current];
      if current.NotObject? || current.id in order {
        SkipIsVisit(g, rest, current, order);
        WalkIsVisit(g, rest, order);
      } else if |order| < OBJECT_LIMIT {
        var more := order + [current.id];
        assert Ids(more) == Ids(order) + {current.id};
        PushIsVisit(g, rest, current.id, order);
        var visited := Visit(g, Reverse(pending), order);
        assert more <= visited && visited[|order|] == current.id;
        if !Witness(At(g, current.id)) {
          WalkIsVisit(g, rest + Links(At(g, current.id)), more);
        }
      }
    }
  }

  lemma VisitNothing(g: Graph, order: seq<nat>)
    ensures Visit(g, Reverse([]), order) == order
  {
  }

  /** On every graph: `connect` exactly when one of the first sixteen objects in depth-first order says so. */
  lemma PhaseIffAmongSixteen(g: Graph, error: Value)
    ensures PhaseOf(g, error) == Connect <==> WitnessAmong(g, Preorder(g, error), 0)
  {
    hide Visit, Walk, Witness;
    assert Reverse([error]) == [error];
    var none: seq<nat> := [];
    assert Ids(none) == {};
    WalkIsVisit(g, [error], none);
  }
}
