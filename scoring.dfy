/** How a query context is scored against the recorded transitions: the per-assessor score,
    the per-successor tally, the candidate list with its total, and cumulative-sum selection. */
module Scoring {
  import opened Outcomes

  /** One recorded observation of a transition: its strength and the ids before and including
      the "from" token, oldest first. */
  datatype Assessor = Assessor(strength: real, context: seq<int>)

  /** The per-match weight as a function of (occurrence count, distance); the C++ weight
      1/(1+sqrt(1+sqrt(count)*distance)) lies in (0, 1/2] for every count and distance. */
  type WeightFn = w: (nat, nat) -> real | forall c: nat, d: nat :: 0.0 < w(c, d) <= 0.5
    witness (c: nat, d: nat) => 0.5

  /** What scoring reads from the chain: the window width, the occurrence counts, the weight. */
  datatype Scorer = Scorer(width: int, counts: map<int, nat>, weight: WeightFn)

  /** The recorded count of an id; an id never counted has count 0. */
  function CountOf(counts: map<int, nat>, id: int): nat
  {
    if id in counts then counts[id] else 0
  }

  /** The first compared offset into the stored context: right alignment skips the stored ids
      that have no partner in a shorter query. */
  function Start(tokens: seq<int>, context: seq<int>): (k: nat)
    ensures k <= |context| && k + |tokens| >= |context|
    ensures k > 0 ==> k + |tokens| == |context|
  {
    if |tokens| < |context| then |context| - |tokens| else 0
  }

  /** Right alignment pairs context[k] with tokens[k + |tokens| - |context|]. */
  predicate MatchAt(tokens: seq<int>, context: seq<int>, k: int)
    requires Start(tokens, context) <= k < |context|
  {
    tokens[k + |tokens| - |context|] == context[k]
  }

  /** The contribution of offset k: the weight of the query's id at distance width - k when the
      pair agrees, nothing otherwise. */
  function Term(sc: Scorer, tokens: seq<int>, context: seq<int>, k: int): real
    requires Start(tokens, context) <= k < |context| && k < sc.width
  {
    if MatchAt(tokens, context, k)
    then sc.weight(CountOf(sc.counts, tokens[k + |tokens| - |context|]), sc.width - k)
    else 0.0
  }

  /** The sum of the contributions of offsets lo .. hi-1. */
  function MatchSum(sc: Scorer, tokens: seq<int>, context: seq<int>, lo: int, hi: int): real
    requires Start(tokens, context) <= lo <= hi <= |context| && hi <= sc.width
    decreases hi - lo
  {
    if hi == lo then 0.0 else MatchSum(sc, tokens, context, lo, hi - 1) + Term(sc, tokens, context, hi - 1)
  }

  /** Some compared pair of the window agrees. */
  ghost predicate HasMatch(sc: Scorer, tokens: seq<int>, context: seq<int>)
  {
    exists k :: Start(tokens, context) <= k < |context| && k < sc.width && MatchAt(tokens, context, k)
  }

  /** Every offset the scoring loop reads (up to width - 1) lies inside the stored context, and
      then inside the query as well. */
  predicate Assessable(sc: Scorer, a: Assessor)
  {
    |a.context| >= sc.width
  }

  predicate AssessableAll(sc: Scorer, assessors: seq<Assessor>)
  {
    forall i :: 0 <= i < |assessors| ==> Assessable(sc, assessors[i])
  }

  ghost predicate AllAssessable(sc: Scorer, successors: map<int, seq<Assessor>>)
  {
    forall to | to in successors :: AssessableAll(sc, successors[to])
  }

  /** Each weight is in (0, 1/2], so a sum over n offsets is between 0 and n/2, and positive
      exactly when some pair agrees. */
  lemma {:induction false} MatchSumRange(sc: Scorer, tokens: seq<int>, context: seq<int>, lo: int, hi: int)
    requires Start(tokens, context) <= lo <= hi <= |context| && hi <= sc.width
    ensures 0.0 <= MatchSum(sc, tokens, context, lo, hi) <= (hi - lo) as real / 2.0
    ensures MatchSum(sc, tokens, context, lo, hi) > 0.0 <==> exists k :: lo <= k < hi && MatchAt(tokens, context, k)
    decreases hi - lo
  {
    if hi > lo {
      MatchSumRange(sc, tokens, context, lo, hi - 1);
      if MatchAt(tokens, context, hi - 1) {
        var i := hi - 1 + |tokens| - |context|;
        assert 0.0 < sc.weight(CountOf(sc.counts, tokens[i]), sc.width - (hi - 1)) <= 0.5;
      }
    }
  }

  /** Scaling a non-negative sum by the strength: zero stays zero, the sign follows the
      strength. */
  lemma ScaleSign(x: real, s: real)
    requires x >= 0.0
    ensures x == 0.0 ==> x * s == 0.0
    ensures s >= 0.0 ==> x * s >= 0.0
    ensures s == 0.0 ==> x * s == 0.0
    ensures s > 0.0 ==> (x * s > 0.0 <==> x > 0.0)
  {
  }

  /** `assess`: the sum of the weights of the agreeing pairs, times the strength. Its sign
      follows the strength, and with a positive strength it is positive exactly when some
      compared pair agrees. */
  function Score(sc: Scorer, tokens: seq<int>, a: Assessor): (r: real)
    requires Assessable(sc, a)
    ensures !HasMatch(sc, tokens, a.context) ==> r == 0.0
    ensures a.strength >= 0.0 ==> r >= 0.0
    ensures a.strength == 0.0 ==> r == 0.0
    ensures a.strength > 0.0 ==> (r > 0.0 <==> HasMatch(sc, tokens, a.context))
  {
    var lo := Start(tokens, a.context);
    if lo < sc.width then
      MatchSumRange(sc, tokens, a.context, lo, sc.width);
      ScaleSign(MatchSum(sc, tokens, a.context, lo, sc.width), a.strength);
      MatchSum(sc, tokens, a.context, lo, sc.width) * a.strength
    else
      0.0
  }

  /** The sum of the scores of a successor's assessors (`get_assessment`). */
  function Tally(sc: Scorer, tokens: seq<int>, assessors: seq<Assessor>): (r: real)
    requires AssessableAll(sc, assessors)
    ensures (forall i :: 0 <= i < |assessors| ==> assessors[i].strength >= 0.0) ==> r >= 0.0
  {
    if assessors == [] then 0.0
    else
      var n := |assessors| - 1;
      assert forall i :: 0 <= i < n ==> assessors[..n][i] == assessors[i];
      Tally(sc, tokens, assessors[..n]) + Score(sc, tokens, assessors[n])
  }

  /** With non-negative strengths, a tally is positive exactly when some assessor with a positive
      strength has an agreeing pair. */
  lemma {:induction false} TallyPositive(sc: Scorer, tokens: seq<int>, assessors: seq<Assessor>)
    requires AssessableAll(sc, assessors)
    requires forall i :: 0 <= i < |assessors| ==> assessors[i].strength >= 0.0
    ensures Tally(sc, tokens, assessors) > 0.0 <==>
              exists i :: 0 <= i < |assessors| && assessors[i].strength > 0.0 && HasMatch(sc, tokens, assessors[i].context)
  {
    if assessors != [] {
      var n := |assessors| - 1;
      var prefix := assessors[..n];
      var last := assessors[n];
      assert forall i :: 0 <= i < n ==> prefix[i] == assessors[i];
      TallyPositive(sc, tokens, prefix);
      assert Tally(sc, tokens, assessors) == Tally(sc, tokens, prefix) + Score(sc, tokens, last);
      if Tally(sc, tokens, prefix) > 0.0 {
        var i :| 0 <= i < n && prefix[i].strength > 0.0 && HasMatch(sc, tokens, prefix[i].context);
        assert assessors[i] == prefix[i];
      } else if Score(sc, tokens, last) > 0.0 {
        assert last.strength > 0.0 && HasMatch(sc, tokens, last.context);
      } else {
        forall i | 0 <= i < |assessors| && assessors[i].strength > 0.0
          ensures !HasMatch(sc, tokens, assessors[i].context)
        {
          if i == n {
            assert assessors[i] == last;
          } else {
            assert assessors[i] == prefix[i];
          }
        }
      }
    }
  }

  /** One entry of the candidate list: a successor id with its tally. */
  datatype Candidate = Candidate(tally: real, to: int)

  /** The sum of the first n tallies. */
  function Prefix(cs: seq<Candidate>, n: nat): real
    requires n <= |cs|
  {
    if n == 0 then 0.0 else Prefix(cs, n - 1) + cs[n - 1].tally
  }

  function Total(cs: seq<Candidate>): real
  {
    Prefix(cs, |cs|)
  }

  function Tos(cs: seq<Candidate>): (tos: seq<int>)
    ensures |tos| == |cs| && forall j :: 0 <= j < |cs| ==> tos[j] == cs[j].to
  {
    seq(|cs|, j requires 0 <= j < |cs| => cs[j].to)
  }

  /** The tally of every recorded successor of a "from" id. */
  function TallyMap(sc: Scorer, tokens: seq<int>, successors: map<int, seq<Assessor>>): (m: map<int, real>)
    requires AllAssessable(sc, successors)
    ensures m.Keys == successors.Keys
  {
    map to | to in successors :: Tally(sc, tokens, successors[to])
  }

  /** `cs` lists every key of `tallies` exactly once, with its tally, in some order. */
  ghost predicate Enumerates(cs: seq<Candidate>, tallies: map<int, real>)
  {
    && (forall j | 0 <= j < |cs| :: cs[j].to in tallies && cs[j].tally == tallies[cs[j].to])
    && (forall j, l | 0 <= j < l < |cs| :: cs[j].to != cs[l].to)
    && (forall t | t in tallies :: t in Tos(cs))
  }

  /** The running sum up to and including position j. */
  function Through(cs: seq<Candidate>, j: nat): real
    requires j < |cs|
  {
    Prefix(cs, j + 1)
  }

  /** The running-sum selection from position k on: the first position j >= k whose running sum
      Through(j) exceeds `selection`. */
  function SelectFrom(cs: seq<Candidate>, selection: real, k: nat): (r: Option<nat>)
    requires k <= |cs|
    ensures r.Some? ==> k <= r.value < |cs| && selection < Through(cs, r.value)
    ensures r.Some? ==> forall j :: k <= j < r.value ==> selection >= Through(cs, j)
    ensures r.None? ==> forall j :: k <= j < |cs| ==> selection >= Through(cs, j)
    decreases |cs| - k
  {
    if k == |cs| then None
    else if selection < Through(cs, k) then Some(k)
    else SelectFrom(cs, selection, k + 1)
  }

  /** The candidate `make_next` picks for a given selection point. */
  function Select(cs: seq<Candidate>, selection: real): (r: Option<nat>)
    ensures r.Some? ==> r.value < |cs| && selection < Through(cs, r.value)
    ensures r.Some? ==> forall j :: 0 <= j < r.value ==> selection >= Through(cs, j)
    ensures r.None? ==> forall j :: 0 <= j < |cs| ==> selection >= Through(cs, j)
  {
    SelectFrom(cs, selection, 0)
  }

  /** A draw in [0, 1) scales a positive total to a point inside [0, total). */
  lemma ScaledBelow(u: real, total: real)
    requires 0.0 <= u < 1.0 && total > 0.0
    ensures 0.0 <= u * total < total
  {
  }

  /** A selection point inside [0, total) over non-negative tallies picks a candidate whose
      tally is positive: its share [Through(k-1), Through(k)) holds the point, so it is not empty. */
  lemma {:induction false} SelectInRange(cs: seq<Candidate>, selection: real)
    requires forall j :: 0 <= j < |cs| ==> cs[j].tally >= 0.0
    requires 0.0 <= selection < Total(cs)
    ensures Select(cs, selection).Some?
    ensures cs[Select(cs, selection).value].tally > 0.0
  {
    assert |cs| > 0;
    var r := Select(cs, selection);
    assert Through(cs, |cs| - 1) == Total(cs);
    if r.None? {
      assert false;
    }
    var k := r.value;
    assert Through(cs, k) == Prefix(cs, k) + cs[k].tally;
    if k > 0 {
      assert selection >= Through(cs, k - 1) == Prefix(cs, k);
    }
  }

  /** Over exact reals, with non-negative tallies, a positive total and a draw u in [0, 1), the
      selection point u * total always falls inside some candidate's share, and that candidate's
      tally is positive. */
  lemma SelectPicksPositive(cs: seq<Candidate>, u: real)
    requires forall j :: 0 <= j < |cs| ==> cs[j].tally >= 0.0
    requires Total(cs) > 0.0 && 0.0 <= u < 1.0
    ensures Select(cs, u * Total(cs)).Some?
    ensures cs[Select(cs, u * Total(cs)).value].tally > 0.0
  {
    ScaledBelow(u, Total(cs));
    SelectInRange(cs, u * Total(cs));
  }

  /** Running sums of non-negative tallies never decrease. */
  lemma {:induction false} PrefixMonotone(cs: seq<Candidate>, m: nat, n: nat)
    requires m <= n <= |cs|
    requires forall j :: 0 <= j < |cs| ==> cs[j].tally >= 0.0
    ensures Prefix(cs, m) <= Prefix(cs, n)
    decreases n - m
  {
    if m < n {
      PrefixMonotone(cs, m, n - 1);
    }
  }

  /** With non-negative tallies, a zero total means every tally is zero. */
  lemma ZeroTotal(cs: seq<Candidate>)
    requires forall j :: 0 <= j < |cs| ==> cs[j].tally >= 0.0
    requires Total(cs) == 0.0
    ensures forall j :: 0 <= j < |cs| ==> cs[j].tally == 0.0
  {
    forall j | 0 <= j < |cs|
      ensures cs[j].tally == 0.0
    {
      PrefixMonotone(cs, 0, j);
      PrefixMonotone(cs, j + 1, |cs|);
    }
  }

  lemma {:induction false} TotalAppend(a: seq<Candidate>, b: seq<Candidate>)
    ensures Total(a + b) == Total(a) + Total(b)
    decreases |b|
  {
    if b == [] {
      assert a + b == a;
    } else {
      var b' := b[..|b| - 1];
      var ab := a + b;
      assert ab[..|ab| - 1] == a + b';
      assert ab[|ab| - 1] == b[|b| - 1];
      assert Total(ab) == Prefix(ab, |ab| - 1) + ab[|ab| - 1].tally;
      assert Total(b) == Prefix(b, |b| - 1) + b[|b| - 1].tally;
      PrefixOfPrefix(ab, |ab| - 1);
      PrefixOfPrefix(b, |b| - 1);
      TotalAppend(a, b');
    }
  }

  /** One more candidate adds its tally to the total. */
  lemma TotalSnoc(cs: seq<Candidate>, c: Candidate)
    ensures Total(cs + [c]) == Total(cs) + c.tally
  {
    var next := cs + [c];
    PrefixOfPrefix(next, |cs|);
    assert next[..|cs|] == cs;
  }

  lemma {:induction false} PrefixOfPrefix(cs: seq<Candidate>, n: nat)
    requires n <= |cs|
    ensures Prefix(cs, n) == Total(cs[..n])
    decreases n
  {
    if n > 0 {
      assert cs[..n][..n - 1] == cs[..n - 1];
      PrefixOfPrefix(cs, n - 1);
      PrefixOfPrefix(cs[..n], n - 1);
    }
  }

  /** Dropping one entry of an enumeration enumerates the tallies without that entry's key. */
  lemma EnumeratesRemove(cs: seq<Candidate>, tallies: map<int, real>, j: nat)
    requires Enumerates(cs, tallies) && j < |cs|
    ensures Enumerates(cs[..j] + cs[j + 1..], tallies - {cs[j].to})
  {
    var rest := cs[..j] + cs[j + 1..];
    var smaller := tallies - {cs[j].to};
    assert forall i :: 0 <= i < |rest| ==> rest[i] == cs[if i < j then i else i + 1];
    forall s | s in smaller
      ensures s in Tos(rest)
    {
      assert s in Tos(cs);
      var i :| 0 <= i < |cs| && Tos(cs)[i] == s;
      assert Tos(rest)[if i < j then i else i - 1] == s;
    }
  }

  /** Removing one entry lowers the total by that entry's tally. */
  lemma TotalWithout(cs: seq<Candidate>, j: nat)
    requires j < |cs|
    ensures Total(cs) == Total(cs[..j] + cs[j + 1..]) + cs[j].tally
  {
    assert cs == (cs[..j] + [cs[j]]) + cs[j + 1..];
    TotalAppend(cs[..j] + [cs[j]], cs[j + 1..]);
    TotalAppend(cs[..j], [cs[j]]);
    TotalAppend(cs[..j], cs[j + 1..]);
    assert Total([cs[j]]) == Prefix([cs[j]], 0) + [cs[j]][0].tally;
  }

  /** The total does not depend on the order of the candidate list: any two lists that both
      enumerate the same tallies have the same total. */
  lemma {:induction false} TotalOrderIndependent(cs1: seq<Candidate>, cs2: seq<Candidate>, tallies: map<int, real>)
    requires Enumerates(cs1, tallies) && Enumerates(cs2, tallies)
    ensures Total(cs1) == Total(cs2)
    decreases |cs1|
  {
    if cs1 != [] {
      var t := cs1[0].to;
      assert t in tallies;
      assert t in Tos(cs2);
      var j :| 0 <= j < |cs2| && Tos(cs2)[j] == t;
      var rest1 := cs1[..0] + cs1[1..];
      var rest2 := cs2[..j] + cs2[j + 1..];
      EnumeratesRemove(cs1, tallies, 0);
      EnumeratesRemove(cs2, tallies, j);
      assert |rest1| < |cs1|;
      TotalOrderIndependent(rest1, rest2, tallies - {t});
      TotalWithout(cs1, 0);
      TotalWithout(cs2, j);
      assert cs2[j].to == t;
      assert cs1[0].tally == tallies[t] == cs2[j].tally;
      assert Total(cs1) == Total(rest1) + tallies[t] == Total(rest2) + tallies[t] == Total(cs2);
    } else {
      assert Tos(cs1) == [];
    }
  }

  /** With non-negative tallies, an enumeration totals zero exactly when every successor's
      tally is zero. */
  lemma ZeroTotalEnumerated(cs: seq<Candidate>, tallies: map<int, real>)
    requires Enumerates(cs, tallies)
    requires forall t | t in tallies :: tallies[t] >= 0.0
    ensures Total(cs) == 0.0 <==> forall t | t in tallies :: tallies[t] == 0.0
  {
    if Total(cs) == 0.0 {
      ZeroTotal(cs);
      forall t | t in tallies
        ensures tallies[t] == 0.0
      {
        assert t in Tos(cs);
      }
    } else if forall t | t in tallies :: tallies[t] == 0.0 {
      ZeroTotalIsZero(cs);
    }
  }

  lemma {:induction false} ZeroTotalIsZero(cs: seq<Candidate>)
    requires forall j :: 0 <= j < |cs| ==> cs[j].tally == 0.0
    ensures Total(cs) == 0.0
  {
    forall n | 0 <= n <= |cs|
      ensures Prefix(cs, n) == 0.0
    {
      PrefixZero(cs, n);
    }
  }

  lemma {:induction false} PrefixZero(cs: seq<Candidate>, n: nat)
    requires n <= |cs|
    requires forall j :: 0 <= j < |cs| ==> cs[j].tally == 0.0
    ensures Prefix(cs, n) == 0.0
  {
    if n > 0 {
      PrefixZero(cs, n - 1);
    }
  }
}
