/** coordinate_descent of mathutil.py over the reals, for any error function. */
module CoordinateDescent {
  type Params = map<string, real>

  type ErrorFunc = Params -> real

  const THRESHOLD := 0.00001
  const MAX_ROUNDS := 10000

  /** The parameter names as keys of the step dictionary, in order of first mention. */
  function Distinct(names: seq<string>): (r: seq<string>)
    ensures forall n :: n in r <==> n in names
    ensures AllDifferent(r)
  {
    if names == [] then []
    else
      var n := |names| - 1;
      var before := Distinct(names[..n]);
      assert names == names[..n] + [names[n]];
      if names[n] in before then before else before + [names[n]]
  }

  /** sum(dp.values()) */
  function Sum(names: seq<string>, dp: Params): real
    requires forall n :: n in names ==> n in dp
  {
    if names == [] then 0.0 else dp[names[0]] + Sum(names[1..], dp)
  }

  /** Positive steps for exactly the adjusted parameters. */
  ghost predicate StepsFor(adj: seq<string>, dp: Params) {
    (forall n :: n in dp <==> n in adj) && forall n :: n in dp ==> dp[n] > 0.0
  }

  /** Only adjusted parameters differ. */
  ghost predicate SameOthers(adj: seq<string>, a: Params, b: Params) {
    a.Keys == b.Keys && forall n :: n in a && n !in adj ==> a[n] == b[n]
  }

  /** Neither step of this size in the parameter improves on the error. */
  predicate NoGain(error: ErrorFunc, params: Params, n: string, step: real)
    requires n in params
  {
    error(params[n := params[n] + step]) >= error(params) && error(params[n := params[n] - step]) >= error(params)
  }

  predicate AllDifferent(names: seq<string>) {
    forall i, j :: 0 <= i < j < |names| ==> names[i] != names[j]
  }

  /** A parameter moved by its step, which then grows, or stayed, and its step shrinks. */
  predicate Moved(value: real, step: real, newValue: real, newStep: real) {
    if newValue == value then newStep == step * 0.9
    else (newValue == value + step || newValue == value - step) && newStep == step * 1.1
  }

  /** The variables of the search. */
  datatype Search = Search(params: Params, dp: Params, bestErr: real)

  /** One parameter's turn: a step up, else a step down, else back. */
  function Probe(s: Search, name: string, error: ErrorFunc): Search
    requires name in s.params && name in s.dp
  {
    var orig, step := s.params[name], s.dp[name];
    var up, down := s.params[name := orig + step], s.params[name := orig - step];
    if error(up) < s.bestErr then Search(up, s.dp[name := step * 1.1], error(up))
    else if error(down) < s.bestErr then Search(down, s.dp[name := step * 1.1], error(down))
    else s.(dp := s.dp[name := step * 0.9])
  }

  predicate Covers(s: Search, adj: seq<string>) {
    forall i :: 0 <= i < |adj| ==> adj[i] in s.params && adj[i] in s.dp
  }

  function ProbeAll(s: Search, adj: seq<string>, error: ErrorFunc): Search
    requires Covers(s, adj)
    decreases |adj|
  {
    if adj == [] then s
    else
      var next := Probe(s, adj[0], error);
      assert Covers(next, adj[1..]) by { assert forall i :: 0 <= i < |adj| - 1 ==> adj[1..][i] == adj[i + 1]; }
      ProbeAll(next, adj[1..], error)
  }

  /** The body of the inner loop: one parameter is tried. */
  method Turn(s: Search, name: string, error: ErrorFunc) returns (t: Search)
    requires name in s.params && name in s.dp
    ensures t == Probe(s, name, error)
  {
    var params, dp, bestErr := s.params, s.dp, s.bestErr;
    var orig := params[name];
    params := params[name := orig + dp[name]];
    var err := error(params);
    if err < bestErr {
      return Search(params, dp[name := dp[name] * 1.1], err);
    }
    params := params[name := orig - dp[name]];
    assert params == s.params[name := orig - dp[name]];
    err := error(params);
    if err < bestErr {
      return Search(params, dp[name := dp[name] * 1.1], err);
    }
    params := params[name := orig];
    assert params == s.params;
    return Search(params, dp[name := dp[name] * 0.9], bestErr);
  }

  method Round(adj: seq<string>, start: Search, error: ErrorFunc) returns (s: Search)
    requires Covers(start, adj)
    ensures s == ProbeAll(start, adj, error)
  {
    s := start;
    for i := 0 to |adj|
      invariant Covers(s, adj[i..])
      invariant ProbeAll(start, adj, error) == ProbeAll(s, adj[i..], error)
    {
      assert adj[i..][0] == adj[i] && adj[i..][1..] == adj[i + 1..];
      s := Turn(s, adj[i], error);
    }
  }

  /** What any number of probes keeps: the error at hand is that of the current
      parameters and never grows; parameters differ only for a gain. */
  ghost predicate Progress(a: Search, b: Search, error: ErrorFunc) {
    b.bestErr == error(b.params) && b.bestErr <= a.bestErr && (b.params != a.params ==> b.bestErr < a.bestErr)
  }

  lemma ProbeProgress(s: Search, name: string, error: ErrorFunc)
    requires name in s.params && name in s.dp && s.bestErr == error(s.params) && s.dp[name] > 0.0
    ensures var t := Probe(s, name, error);
            && Progress(s, t, error)
            && t.params.Keys == s.params.Keys && t.dp.Keys == s.dp.Keys
            && (forall n :: n in s.params && n != name ==> t.params[n] == s.params[n])
            && (forall n :: n in s.dp && n != name ==> t.dp[n] == s.dp[n])
            && Moved(s.params[name], s.dp[name], t.params[name], t.dp[name]) && t.dp[name] > 0.0
            && (t.params == s.params ==> NoGain(error, s.params, name, s.dp[name]))
            && (error(s.params[name := s.params[name] + s.dp[name]]) < error(s.params) ==>
                  t.params[name] == s.params[name] + s.dp[name])
  {
    var orig, step := s.params[name], s.dp[name];
    assert s.params[name := orig + step][name] != s.params[name];
    assert s.params[name := orig - step][name] != s.params[name];
  }

  /** One round over the parameters: it changes only adjusted parameters, each by
      its step if it moves at all, and a round that changes nothing shows that
      no single step improves. */
  lemma {:induction false} RoundResult(start: Search, adj: seq<string>, error: ErrorFunc)
    requires Covers(start, adj) && start.bestErr == error(start.params)
    requires forall n :: n in start.dp ==> start.dp[n] > 0.0
    ensures var s := ProbeAll(start, adj, error);
            && Progress(start, s, error)
            && s.params.Keys == start.params.Keys && s.dp.Keys == start.dp.Keys
            && (forall n :: n in s.dp ==> s.dp[n] > 0.0)
            && (forall n :: n in s.params && n !in adj ==> s.params[n] == start.params[n])
            && (forall n :: n in s.dp && n !in adj ==> s.dp[n] == start.dp[n])
            && (AllDifferent(adj) ==> forall i :: 0 <= i < |adj| ==>
                  Moved(start.params[adj[i]], start.dp[adj[i]], s.params[adj[i]], s.dp[adj[i]]))
            && (AllDifferent(adj) && s.params == start.params ==> forall i :: 0 <= i < |adj| ==>
                  NoGain(error, start.params, adj[i], start.dp[adj[i]]))
    decreases |adj|
  {
    hide NoGain, Moved, Probe;
    if adj != [] {
      var next, rest := Probe(start, adj[0], error), adj[1..];
      ProbeProgress(start, adj[0], error);
      assert forall i :: 0 <= i < |rest| ==> rest[i] == adj[i + 1];
      RoundResult(next, rest, error);
      if AllDifferent(adj) {
        assert adj[0] !in rest;
        assert forall i :: 0 <= i < |rest| ==> rest[i] != adj[0];
      }
    }
  }

  /** A round that changes nothing shows that no single step of the sizes it
      started with improves, names mentioned repeatedly included. */
  lemma {:induction false} StillMeansNoGain(start: Search, adj: seq<string>, error: ErrorFunc)
    requires Covers(start, adj) && start.bestErr == error(start.params)
    requires forall n :: n in start.dp ==> start.dp[n] > 0.0
    requires ProbeAll(start, adj, error).params == start.params
    ensures forall n :: n in adj ==> NoGain(error, start.params, n, start.dp[n])
    decreases |adj|
  {
    hide NoGain, Moved, Probe;
    if adj != [] {
      var next, rest := Probe(start, adj[0], error), adj[1..];
      ProbeProgress(start, adj[0], error);
      assert forall i :: 0 <= i < |rest| ==> rest[i] == adj[i + 1];
      RoundResult(next, rest, error);
      StillMeansNoGain(next, rest, error);
    }
  }

  // ---------- The search ----------

  lemma {:induction false} ProbeAllKeys(s: Search, adj: seq<string>, error: ErrorFunc)
    requires Covers(s, adj)
    ensures ProbeAll(s, adj, error).params.Keys == s.params.Keys && ProbeAll(s, adj, error).dp.Keys == s.dp.Keys
    decreases |adj|
  {
    hide Probe;
    if adj != [] {
      ProbeKeys(s, adj[0], error);
      assert forall i :: 0 <= i < |adj| - 1 ==> adj[1..][i] == adj[i + 1];
      ProbeAllKeys(Probe(s, adj[0], error), adj[1..], error);
    }
  }

  lemma ProbeKeys(s: Search, name: string, error: ErrorFunc)
    requires name in s.params && name in s.dp
    ensures Probe(s, name, error).params.Keys == s.params.Keys && Probe(s, name, error).dp.Keys == s.dp.Keys
  {
  }

  /** The state after n rounds. */
  function Rounds(s: Search, adj: seq<string>, error: ErrorFunc, n: nat): (r: Search)
    requires Covers(s, adj)
    ensures r.params.Keys == s.params.Keys && r.dp.Keys == s.dp.Keys
  {
    if n == 0 then s
    else
      var before := Rounds(s, adj, error, n - 1);
      ProbeAllKeys(before, adj, error);
      ProbeAll(before, adj, error)
  }

  /** Steps of one for all adjusted parameters. */
  function Begin(adj: seq<string>, start: Params, error: ErrorFunc): Search {
    Search(start, map n | n in adj :: 1.0, error(start))
  }

  /** What the steps add up to after n rounds. */
  function StepsAfter(adj: seq<string>, start: Params, error: ErrorFunc, n: nat): real
    requires forall n :: n in adj ==> n in start
  {
    Sum(Distinct(adj), Rounds(Begin(adj, start, error), adj, error, n).dp)
  }

  /** Some step of one up or down improves on the start. */
  predicate CanImprove(adj: seq<string>, start: Params, error: ErrorFunc)
    requires forall n :: n in adj ==> n in start
  {
    exists n :: n in adj &&
      (error(start[n := start[n] + 1.0]) < error(start) || error(start[n := start[n] - 1.0]) < error(start))
  }

  lemma {:induction false} RoundsProgress(adj: seq<string>, start: Params, error: ErrorFunc, n: nat)
    requires forall n :: n in adj ==> n in start
    ensures var s := Rounds(Begin(adj, start, error), adj, error, n);
            && Progress(Begin(adj, start, error), s, error)
            && SameOthers(adj, s.params, start) && StepsFor(adj, s.dp)
  {
    hide ProbeAll;
    if n > 0 {
      RoundsProgress(adj, start, error, n - 1);
      RoundProgress(Rounds(Begin(adj, start, error), adj, error, n - 1), adj, error);
    }
  }

  /** RoundResult without what it says of single parameters. */
  lemma RoundProgress(start: Search, adj: seq<string>, error: ErrorFunc)
    requires Covers(start, adj) && start.bestErr == error(start.params) && StepsFor(adj, start.dp)
    ensures var s := ProbeAll(start, adj, error);
            Progress(start, s, error) && SameOthers(adj, s.params, start.params) && StepsFor(adj, s.dp)
  {
    hide ProbeAll, Moved, NoGain, AllDifferent;
    RoundResult(start, adj, error);
  }

  lemma {:induction false} FirstRoundImproves(adj: seq<string>, start: Params, error: ErrorFunc, n: nat)
    requires (forall n :: n in adj ==> n in start) && n >= 1 && CanImprove(adj, start, error)
    ensures error(Rounds(Begin(adj, start, error), adj, error, n).params) < error(start)
  {
    hide ProbeAll;
    var begin := Begin(adj, start, error);
    var before := Rounds(begin, adj, error, n - 1);
    RoundsProgress(adj, start, error, n - 1);
    RoundProgress(before, adj, error);
    if n == 1 {
      if ProbeAll(begin, adj, error).params == start {
        StillMeansNoGain(begin, adj, error);
        assert false;
      }
    } else {
      FirstRoundImproves(adj, start, error, n - 1);
    }
  }

  lemma {:induction false} SumOfOnes(names: seq<string>, dp: Params)
    requires forall n :: n in names ==> n in dp && dp[n] == 1.0
    ensures Sum(names, dp) == |names| as real
  {
    if names != [] { SumOfOnes(names[1..], dp); }
  }

  lemma SomethingToAdjust(adj: seq<string>, start: Params, error: ErrorFunc)
    requires (forall n :: n in adj ==> n in start) && CanImprove(adj, start, error)
    ensures Sum(Distinct(adj), Begin(adj, start, error).dp) > THRESHOLD
  {
    SumOfOnes(Distinct(adj), Begin(adj, start, error).dp);
    var n :| n in adj;
    assert n in Distinct(adj);
  }

  lemma RoundsNext(s: Search, adj: seq<string>, error: ErrorFunc, n: nat)
    requires Covers(s, adj)
    ensures Covers(Rounds(s, adj, error, n), adj)
    ensures Rounds(s, adj, error, n + 1) == ProbeAll(Rounds(s, adj, error, n), adj, error)
  {
    hide ProbeAll;
  }

  /** What holds of the parameters after n rounds, and of stopping then. */
  lemma AfterRounds(adj: seq<string>, start: Params, error: ErrorFunc, n: nat)
    requires forall n :: n in adj ==> n in start
    requires n == 0 ==> Sum(Distinct(adj), Begin(adj, start, error).dp) <= THRESHOLD
    ensures var s := Rounds(Begin(adj, start, error), adj, error, n);
            && error(s.params) <= error(start) && (s.params != start ==> error(s.params) < error(start))
            && SameOthers(adj, s.params, start) && StepsFor(adj, s.dp)
            && (CanImprove(adj, start, error) ==> error(s.params) < error(start))
  {
    hide CanImprove, Rounds, Sum, Distinct;
    RoundsProgress(adj, start, error, n);
    if CanImprove(adj, start, error) {
      SomethingToAdjust(adj, start, error);
      FirstRoundImproves(adj, start, error, n);
    }
  }

  /** The result is never worse than the start, differs from it only for a gain,
      and leaves all other parameters alone; the search ends within the rounds
      allowed, and earlier only when the steps add up to the threshold or less. */
  method Descend(adj: seq<string>, start: Params, error: ErrorFunc)
    returns (params: Params, ghost dp: Params, ghost rounds: nat)
    requires forall n :: n in adj ==> n in start
    ensures error(params) <= error(start)
    ensures params != start ==> error(params) < error(start)
    ensures SameOthers(adj, params, start) && StepsFor(adj, dp)
    ensures params == Rounds(Begin(adj, start, error), adj, error, rounds).params
    ensures dp == Rounds(Begin(adj, start, error), adj, error, rounds).dp
    ensures rounds <= 10000
    ensures rounds == 10000 || Sum(Distinct(adj), dp) <= 0.00001
    ensures forall k :: 0 <= k < rounds ==> StepsAfter(adj, start, error, k) > 0.00001
    ensures CanImprove(adj, start, error) ==> error(params) < error(start)
  {
    hide ProbeAll, CanImprove, Rounds, Sum, Distinct, SameOthers, StepsFor;
    params := start;
    var names := Distinct(adj);
    var steps: Params := map n | n in adj :: 1.0;
    var search := Search(params, steps, error(params));
    ghost var begin := Begin(adj, start, error);
    var count := 0;
    NoRounds(begin, adj, error);
    while Sum(names, search.dp) > THRESHOLD && count < MAX_ROUNDS
      invariant count <= MAX_ROUNDS && search == Rounds(begin, adj, error, count) && Covers(search, adj)
      invariant forall k :: 0 <= k < count ==> StepsAfter(adj, start, error, k) > THRESHOLD
      decreases MAX_ROUNDS - count
    {
      RoundsNext(begin, adj, error, count);
      RoundsNext(begin, adj, error, count + 1);
      assert StepsAfter(adj, start, error, count) == Sum(names, search.dp);
      search := Round(adj, search, error);
      count := count + 1;
    }
    AfterRounds(adj, start, error, count);
    params, dp, rounds := search.params, search.dp, count;
  }

  lemma NoRounds(s: Search, adj: seq<string>, error: ErrorFunc)
    requires Covers(s, adj)
    ensures Rounds(s, adj, error, 0) == s
  {
  }
}
