/** The union authorizer: an ordered chain of authorizers in which the first
    one to grant a request decides it, and for a request no authorizer grants
    every authorizer's error is collected in chain order into an aggregate.

    An authorizer is a function from request attributes to a Go `error`. The
    aggregate error built from the collected list is represented by the list
    itself. */
module Union {
  import opened AuthTypes

  /** `authorizer.Authorizer`. */
  type Authorizer = Attributes -> Error

  /** `unionAuthzHandler`, a slice of authorizers. */
  datatype UnionAuthzHandler = UnionAuthzHandler(handlers: seq<Authorizer>)

  /** The outcome of the union: granted (a nil error), or the error
      `errors.NewAggregate(errlist)`. That package is not part of this model,
      so what an empty `errlist` turns into is left open. */
  datatype Outcome = Granted | Aggregate(errlist: seq<Error>)

  /** `New`: the chain of the given authorizers, in the order given. */
  function New(authorizationHandlers: seq<Authorizer>): (u: UnionAuthzHandler)
    ensures |u.handlers| == |authorizationHandlers|
    ensures forall i :: 0 <= i < |authorizationHandlers| ==> u.handlers[i] == authorizationHandlers[i]
  {
    UnionAuthzHandler(authorizationHandlers)
  }

  /** The decision of a chain, by recursion on the chain: its head grants, or
      the rest of the chain decides, an aggregate gaining the head's error in
      front. */
  ghost function ChainOutcome(hs: seq<Authorizer>, a: Attributes): Outcome
    decreases |hs|
  {
    if hs == [] then Aggregate([])
    else if hs[0](a) == Nil then Granted
    else
      match ChainOutcome(hs[1..], a)
      case Granted => Granted
      case Aggregate(rest) => Aggregate([hs[0](a)] + rest)
  }

  /** The position of the first authorizer that grants the request, or the
      length of the chain when none does. */
  function FirstGrant(hs: seq<Authorizer>, a: Attributes): (k: nat)
    ensures k <= |hs|
    ensures k < |hs| ==> hs[k](a) == Nil
    ensures forall j :: 0 <= j < k ==> hs[j](a) != Nil
    decreases |hs|
  {
    if hs == [] then 0
    else if hs[0](a) == Nil then 0
    else 1 + FirstGrant(hs[1..], a)
  }

  /** A chain grants exactly when one of its authorizers grants; otherwise
      its aggregate holds, position by position, the error of every
      authorizer. */
  lemma {:induction false} ChainOutcomeSpec(hs: seq<Authorizer>, a: Attributes)
    ensures ChainOutcome(hs, a) == Granted <==> exists i :: 0 <= i < |hs| && hs[i](a) == Nil
    ensures ChainOutcome(hs, a).Aggregate? ==>
              |ChainOutcome(hs, a).errlist| == |hs|
              && forall i :: 0 <= i < |hs| ==> ChainOutcome(hs, a).errlist[i] == hs[i](a)
    decreases |hs|
  {
    if hs != [] && hs[0](a) != Nil {
      ChainOutcomeSpec(hs[1..], a);
      if exists i :: 0 <= i < |hs| && hs[i](a) == Nil {
        var i :| 0 <= i < |hs| && hs[i](a) == Nil;
        assert hs[1..][i - 1] == hs[i];
      }
      if exists i :: 0 <= i < |hs[1..]| && hs[1..][i](a) == Nil {
        var i :| 0 <= i < |hs[1..]| && hs[1..][i](a) == Nil;
        assert hs[i + 1] == hs[1..][i];
      }
    }
  }

  /** Short circuit: the authorizers after the first one that grants play no
      part in the decision. */
  lemma {:induction false} ChainOutcomeStopsAtGrant(hs: seq<Authorizer>, rest: seq<Authorizer>, a: Attributes)
    requires FirstGrant(hs, a) < |hs|
    ensures ChainOutcome(hs[..FirstGrant(hs, a) + 1] + rest, a) == ChainOutcome(hs, a) == Granted
    decreases |hs|
  {
    var k := FirstGrant(hs, a);
    var chain := hs[..k + 1] + rest;
    if k == 0 {
      assert chain[0] == hs[0];
    } else {
      assert chain[0] == hs[0];
      assert chain[1..] == hs[1..][..k] + rest;
      assert FirstGrant(hs[1..], a) == k - 1;
      ChainOutcomeStopsAtGrant(hs[1..], rest, a);
    }
  }

  /** `unionAuthzHandler.Authorize`: the authorizers are asked one at a time
      in chain order, each at most once, and asking stops at the first
      grant. The ghost `consulted` lists the positions asked. */
  method Authorize(authzHandler: UnionAuthzHandler, a: Attributes) returns (r: Outcome, ghost consulted: seq<nat>)
    ensures r == ChainOutcome(authzHandler.handlers, a)
    ensures |consulted| == if r.Granted? then FirstGrant(authzHandler.handlers, a) + 1 else |authzHandler.handlers|
    ensures forall j :: 0 <= j < |consulted| ==> consulted[j] == j
  {
    var hs := authzHandler.handlers;
    var errlist: seq<Error> := [];
    consulted := [];
    var i := 0;
    while i < |hs|
      invariant 0 <= i <= |hs|
      invariant |consulted| == i && forall j :: 0 <= j < i ==> consulted[j] == j
      invariant |errlist| == i && forall j :: 0 <= j < i ==> errlist[j] == hs[j](a) != Nil
    {
      var err := hs[i](a);
      consulted := consulted + [i];
      if err != Nil {
        errlist := errlist + [err];
        i := i + 1;
        continue;
      }
      ChainOutcomeSpec(hs, a);
      assert FirstGrant(hs, a) == i;
      return Granted, consulted;
    }
    ChainOutcomeSpec(hs, a);
    return Aggregate(errlist), consulted;
  }
}
