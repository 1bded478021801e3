/** What ingesting one tokenized sentence does to the transition index and to the occurrence
    counts, as functions of the ids of the sentence. */
module Ingestion {
  import opened Scoring

  /** from id -> (to id -> assessors, in the order they were recorded). */
  type Index = map<int, map<int, seq<Assessor>>>

  /** The assessors recorded for (from, to); none when the pair was never seen. */
  function Entry(index: Index, from: int, to: int): seq<Assessor>
  {
    if from in index && to in index[from] then index[from][to] else []
  }

  /** The context stored for the transition out of position i: the ids at positions
      max(0, i - width) .. i, oldest first (empty when the width is negative). */
  function Window(toks: seq<int>, i: int, width: int): (context: seq<int>)
    requires 0 <= i < |toks|
    ensures width >= 0 ==> |context| == (if i < width then i else width) + 1
    ensures width >= 0 ==> context == toks[i + 1 - |context|..i + 1] && context[|context| - 1] == toks[i]
    ensures width < 0 ==> context == []
  {
    var lo := if i - width > 0 then i - width else 0;
    if lo <= i then toks[lo..i + 1] else []
  }

  /** Appends one assessor to the list of (from, to), creating the entries on first use. */
  function Record(index: Index, from: int, to: int, a: Assessor): (r: Index)
    ensures Entry(r, from, to) == Entry(index, from, to) + [a]
  {
    var successors := if from in index then index[from] else map[];
    var assessors := if to in successors then successors[to] else [];
    index[from := successors[to := assessors + [a]]]
  }

  /** Recording touches no other list and removes no key. */
  lemma RecordFrame(index: Index, from: int, to: int, a: Assessor)
    ensures var r := Record(index, from, to, a);
            && (forall f, t :: (f != from || t != to) ==> Entry(r, f, t) == Entry(index, f, t))
            && r.Keys == index.Keys + {from}
            && (forall f | f in index :: index[f].Keys <= r[f].Keys)
  {
  }

  /** Recording (from, to) leaves the list of any other pair (f, t) as it was. */
  lemma RecordOther(index: Index, from: int, to: int, a: Assessor, f: int, t: int)
    requires f != from || t != to
    ensures Entry(Record(index, from, to, a), f, t) == Entry(index, f, t)
  {
  }

  /** The number of adjacent pairs of a sentence. */
  function Pairs(toks: seq<int>): nat
  {
    if |toks| == 0 then 0 else |toks| - 1
  }

  /** The index after recording the transitions out of positions 0 .. n-1, each with its window
      and the given strength. */
  function Ingested(index: Index, toks: seq<int>, width: int, strength: real, n: nat): Index
    requires n <= Pairs(toks)
  {
    if n == 0 then index
    else Record(Ingested(index, toks, width, strength, n - 1), toks[n - 1], toks[n],
                Assessor(strength, Window(toks, n - 1, width)))
  }

  /** The assessors that positions 0 .. n-1 contribute to the pair (from, to), in order: one per
      position i with toks[i] == from and toks[i + 1] == to. */
  function Added(toks: seq<int>, width: int, strength: real, from: int, to: int, n: nat): seq<Assessor>
    requires n <= Pairs(toks)
  {
    if n == 0 then []
    else
      Added(toks, width, strength, from, to, n - 1) +
      (if toks[n - 1] == from && toks[n] == to then [Assessor(strength, Window(toks, n - 1, width))] else [])
  }

  /** The number of adjacent pairs (from, to) among positions 0 .. n-1. */
  function PairCount(toks: seq<int>, from: int, to: int, n: nat): nat
    requires n <= Pairs(toks)
  {
    if n == 0 then 0
    else PairCount(toks, from, to, n - 1) + (if toks[n - 1] == from && toks[n] == to then 1 else 0)
  }

  /** Ingestion only appends: every existing list is kept as it was, and each pair occurrence
      adds exactly one assessor to the end of its own list. */
  lemma {:induction false} IngestedEntries(index: Index, toks: seq<int>, width: int, strength: real, n: nat, from: int, to: int)
    requires n <= Pairs(toks)
    ensures Entry(Ingested(index, toks, width, strength, n), from, to) == Entry(index, from, to) + Added(toks, width, strength, from, to, n)
  {
    if n > 0 {
      IngestedEntries(index, toks, width, strength, n - 1, from, to);
      var before := Ingested(index, toks, width, strength, n - 1);
      var a := Assessor(strength, Window(toks, n - 1, width));
      var added := Added(toks, width, strength, from, to, n - 1);
      var after := Ingested(index, toks, width, strength, n);
      assert after == Record(before, toks[n - 1], toks[n], a);
      if toks[n - 1] == from && toks[n] == to {
        assert Entry(after, from, to) == Entry(before, from, to) + [a];
        assert Added(toks, width, strength, from, to, n) == added + [a];
        assert Entry(index, from, to) + added + [a] == Entry(index, from, to) + (added + [a]);
      } else {
        RecordOther(before, toks[n - 1], toks[n], a, from, to);
        assert Added(toks, width, strength, from, to, n) == added + [];
        assert added + [] == added;
      }
    }
  }

  /** Every assessor of the index has a non-negative strength. */
  predicate NonNegativeStrengths(index: Index)
  {
    forall f, t | f in index && t in index[f] ::
      forall i | 0 <= i < |index[f][t]| :: index[f][t][i].strength >= 0.0
  }

  /** Ingesting a sentence with a non-negative strength (the default 1.0 is one) keeps every
      strength of the index non-negative. */
  lemma IngestedNonNegative(index: Index, toks: seq<int>, width: int, strength: real)
    requires strength >= 0.0 && NonNegativeStrengths(index)
    ensures NonNegativeStrengths(Ingested(index, toks, width, strength, Pairs(toks)))
  {
    var r: Index := Ingested(index, toks, width, strength, Pairs(toks));
    forall f, t | f in r && t in r[f]
      ensures forall i | 0 <= i < |r[f][t]| :: r[f][t][i].strength >= 0.0
    {
      var old_ := Entry(index, f, t);
      var added := Added(toks, width, strength, f, t, Pairs(toks));
      IngestedEntries(index, toks, width, strength, Pairs(toks), f, t);
      AddedShape(toks, width, strength, f, t, Pairs(toks));
      assert r[f][t] == old_ + added;
      forall i | 0 <= i < |r[f][t]|
        ensures r[f][t][i].strength >= 0.0
      {
        if i < |old_| {
          assert r[f][t][i] == index[f][t][i];
        } else {
          assert r[f][t][i] == added[i - |old_|];
          assert Shaped(added[i - |old_|], strength, width, f);
        }
      }
    }
  }

  /** An assessor as ingestion builds it for the pair starting with `from`: the given strength,
      and a context that ends with `from` and holds at most width + 1 ids. */
  predicate Shaped(a: Assessor, strength: real, width: int, from: int)
  {
    a.strength == strength &&
    (width >= 0 ==> 1 <= |a.context| <= width + 1 && a.context[|a.context| - 1] == from)
  }

  predicate AllShaped(assessors: seq<Assessor>, strength: real, width: int, from: int)
  {
    forall k | 0 <= k < |assessors| :: Shaped(assessors[k], strength, width, from)
  }

  /** One assessor per occurrence of the pair. */
  lemma {:induction false} AddedCount(toks: seq<int>, width: int, strength: real, from: int, to: int, n: nat)
    requires n <= Pairs(toks)
    ensures |Added(toks, width, strength, from, to, n)| == PairCount(toks, from, to, n)
  {
    if n > 0 {
      AddedCount(toks, width, strength, from, to, n - 1);
    }
  }

  /** Every assessor added for the pair is shaped by its occurrence. */
  lemma {:induction false} AddedShape(toks: seq<int>, width: int, strength: real, from: int, to: int, n: nat)
    requires n <= Pairs(toks)
    ensures AllShaped(Added(toks, width, strength, from, to, n), strength, width, from)
  {
    if n > 0 {
      AddedShape(toks, width, strength, from, to, n - 1);
      var prev := Added(toks, width, strength, from, to, n - 1);
      if toks[n - 1] == from && toks[n] == to {
        var a := Assessor(strength, Window(toks, n - 1, width));
        assert Added(toks, width, strength, from, to, n) == prev + [a];
        WindowShaped(toks, n - 1, width, strength);
        SnocShaped(prev, a, strength, width, from);
      } else {
        assert Added(toks, width, strength, from, to, n) == prev + [];
        assert prev + [] == prev;
      }
    }
  }

  lemma WindowShaped(toks: seq<int>, i: int, width: int, strength: real)
    requires 0 <= i < |toks|
    ensures Shaped(Assessor(strength, Window(toks, i, width)), strength, width, toks[i])
  {
  }

  lemma SnocShaped(prev: seq<Assessor>, a: Assessor, strength: real, width: int, from: int)
    requires AllShaped(prev, strength, width, from) && Shaped(a, strength, width, from)
    ensures AllShaped(prev + [a], strength, width, from)
  {
    assert forall k | 0 <= k < |prev| :: (prev + [a])[k] == prev[k];
  }

  /** No list or key is ever removed: the index only grows. */
  lemma {:induction false} IngestedGrows(index: Index, toks: seq<int>, width: int, strength: real, n: nat)
    requires n <= Pairs(toks)
    ensures var r := Ingested(index, toks, width, strength, n);
            index.Keys <= r.Keys && forall f | f in index :: index[f].Keys <= r[f].Keys
  {
    if n > 0 {
      IngestedGrows(index, toks, width, strength, n - 1);
      RecordFrame(Ingested(index, toks, width, strength, n - 1), toks[n - 1], toks[n], Assessor(strength, Window(toks, n - 1, width)));
    }
  }

  /** Every key of the index, and every successor key, is an id below `bound` with a non-empty
      successor map and non-empty assessor lists. */
  ghost predicate WellKeyed(index: Index, bound: int)
  {
    forall f | f in index ::
      && 0 <= f < bound && |index[f]| > 0
      && forall t | t in index[f] :: 0 <= t < bound && |index[f][t]| > 0
  }

  /** Ingesting ids below `bound` keeps the index well keyed. */
  lemma {:induction false} IngestedWellKeyed(index: Index, toks: seq<int>, width: int, strength: real, n: nat, bound: int)
    requires n <= Pairs(toks)
    requires WellKeyed(index, bound)
    requires forall i :: 0 <= i < |toks| ==> 0 <= toks[i] < bound
    ensures WellKeyed(Ingested(index, toks, width, strength, n), bound)
  {
    if n > 0 {
      IngestedWellKeyed(index, toks, width, strength, n - 1, bound);
      var before := Ingested(index, toks, width, strength, n - 1);
      var a := Assessor(strength, Window(toks, n - 1, width));
      assert Ingested(index, toks, width, strength, n) == Record(before, toks[n - 1], toks[n], a);
      RecordWellKeyed(before, toks[n - 1], toks[n], a, bound);
    }
  }

  /** Recording a pair of ids below `bound` keeps the index well keyed. */
  lemma RecordWellKeyed(index: Index, from: int, to: int, a: Assessor, bound: int)
    requires WellKeyed(index, bound) && 0 <= from < bound && 0 <= to < bound
    ensures WellKeyed(Record(index, from, to, a), bound)
  {
    var r := Record(index, from, to, a);
    forall f | f in r
      ensures 0 <= f < bound && |r[f]| > 0 && forall t | t in r[f] :: 0 <= t < bound && |r[f][t]| > 0
    {
      if f == from {
        assert to in r[f];
        forall t | t in r[f]
          ensures 0 <= t < bound && |r[f][t]| > 0
        {
          if t != to {
            assert r[f][t] == index[f][t];
          }
        }
      } else {
        assert r[f] == index[f];
      }
    }
  }

  /** One more occurrence of an id. */
  function Bump(counts: map<int, nat>, id: int): (r: map<int, nat>)
    ensures CountOf(r, id) == CountOf(counts, id) + 1
    ensures forall x :: x != id ==> CountOf(r, x) == CountOf(counts, x)
  {
    counts[id := CountOf(counts, id) + 1]
  }

  /** The counts after counting the ids at positions 0 .. n-1. */
  function Counted(counts: map<int, nat>, toks: seq<int>, n: nat): map<int, nat>
    requires n <= |toks|
  {
    if n == 0 then counts else Bump(Counted(counts, toks, n - 1), toks[n - 1])
  }

  /** Every occurrence is counted, the last token of the sentence included. */
  lemma {:induction false} CountedOccurrences(counts: map<int, nat>, toks: seq<int>, n: nat, x: int)
    requires n <= |toks|
    ensures CountOf(Counted(counts, toks, n), x) == CountOf(counts, x) + multiset(toks[..n])[x]
  {
    if n > 0 {
      CountedOccurrences(counts, toks, n - 1, x);
      assert toks[..n] == toks[..n - 1] + [toks[n - 1]];
    }
  }
}
