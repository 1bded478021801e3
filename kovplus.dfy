/** The chain (ingestion and scoring over a shared vocabulary) and the query (weighted
    generation, one id at a time). */
module KovPlus {
  import opened Outcomes
  import opened Fields
  import opened Sentences
  import opened Scoring
  import opened Ingestion

  /** The result of `get_assessments`: the total and one candidate per recorded successor. */
  datatype Assessments = Assessments(total: real, candidates: seq<Candidate>)

  /** A set with no element is empty (the step from `s != {}` to a chosen element). */
  lemma NoElementEmpty(s: set<int>)
    ensures (forall x :: x !in s) ==> s == {}
  {
    if forall x :: x !in s {
      assert s == {};
    }
  }

  class KovPlusChain {
    const bag: WordBag
    var index: Index
    var wordCount: map<int, nat>
    const width: int
    const weight: WeightFn

    /** The bag is valid and the index holds only interned ids, with no empty entries. */
    ghost predicate Valid()
      reads this, bag
    {
      bag.Valid() && WellKeyed(index, |bag.tokenList|)
    }

    /** What the scoring reads from the chain. */
    function CurrentScorer(): Scorer
      reads this
    {
      Scorer(width, wordCount, weight)
    }

    ghost predicate Recorded(from: int, to: int)
      reads this
    {
      from in index && to in index[from]
    }

    /** The ids recorded as following `from`. */
    ghost function Successors(from: int): set<int>
      reads this
    {
      if from in index then index[from].Keys else {}
    }

    /** Every recorded assessor has a non-negative strength; `AddSentence` keeps this whenever it
        is given a non-negative strength, as the default 1.0 is. */
    ghost predicate NonNegative()
      reads this
    {
      NonNegativeStrengths(index)
    }

    /** The reference definition of `get_assessment(from, to)`: the tally of the assessors recorded for
        (last id of `from`, to), zero when there are none; the out-of-range read when one of
        them has a context shorter than the window. */
    ghost function Assessment(from: seq<int>, to: int): Result<real>
      reads this
      requires |from| > 0
    {
      var entry := Entry(index, from[|from| - 1], to);
      if AssessableAll(CurrentScorer(), entry) then Ok(Tally(CurrentScorer(), from, entry)) else Err(ReadPastEnd)
    }

    /** No continuation: the last id has no recorded successor, or every successor scores zero. */
    ghost predicate Halts(from: seq<int>)
      reads this
      requires |from| > 0
    {
      var f := from[|from| - 1];
      f !in index ||
      (AllAssessable(CurrentScorer(), index[f]) &&
       forall t | t in index[f] :: Tally(CurrentScorer(), from, index[f][t]) == 0.0)
    }

    /** `to` is a recorded successor of the last id of `from` whose tally is positive. */
    ghost predicate Continues(from: seq<int>, to: int)
      reads this
      requires |from| > 0
    {
      var f := from[|from| - 1];
      Recorded(f, to) && AssessableAll(CurrentScorer(), index[f][to]) &&
      Tally(CurrentScorer(), from, index[f][to]) > 0.0
    }

    /** A chain with the given window width, an empty index and no counts; its bag holds only the
        empty string. */
    constructor (assessmentWindowWidth: int, weight: WeightFn)
      ensures Valid() && fresh(bag) && bag.tokenList == [""]
      ensures width == assessmentWindowWidth && this.weight == weight
      ensures index == map[] && wordCount == map[]
      ensures forall f :: Successors(f) == {}
    {
      bag := new WordBag();
      index := map[];
      wordCount := map[];
      width := assessmentWindowWidth;
      this.weight := weight;
    }

    /** `can_assess`: some transition out of the last id has been recorded. The context must not
        be empty (the C++ reads its last element unchecked). */
    function CanAssess(from: seq<int>): (b: bool)
      reads this, bag
      requires Valid() && |from| > 0
      ensures b <==> Successors(from[|from| - 1]) != {}
    {
      var f := from[|from| - 1];
      if f in index then assert index[f].Keys != {}; true else false
    }

    /** `can_assess` on text: every word must be known; then only the last word matters. */
    function CanAssessText(from: string, separator: char): (r: Result<bool>)
      reads this, bag
      requires Valid() && Split(from, separator) != []
      ensures r.Ok? <==> bag.GetIds(Split(from, separator)).Ok?
      ensures r.Err? ==> r.error == UnknownToken
      ensures r.Ok? ==> var words := Split(from, separator); var last := words[|words| - 1];
                        last in bag.tokenIndex && (r.value <==> bag.tokenIndex[last] in index)
    {
      match bag.GetIds(Split(from, separator))
      case Err(e) => Err(e)
      case Ok(ids) => Ok(CanAssess(ids))
    }

    /** `assess`: right-aligned comparison of the query `tokens` with the assessor's context over
        offsets Start .. width-1, weighting each agreeing pair; the read past the end of both
        sequences, which happens exactly when the stored context is shorter than the width, is
        reported instead of performed. */
    method Assess(tokens: seq<int>, assessor: Assessor) returns (r: Result<real>)
      ensures r.Ok? <==> Assessable(CurrentScorer(), assessor)
      ensures r.Err? ==> r.error == ReadPastEnd
      ensures r.Ok? ==> r.value == Score(CurrentScorer(), tokens, assessor)
    {
      var assessment := 0.0;
      var i := 0;
      var expI := 0;
      var expected := assessor.context;
      if |tokens| < |expected| {
        expI := |expected| - |tokens|;
      } else {
        i := |tokens| - |expected|;
      }
      ghost var lo := expI;
      while expI < width
        invariant lo == Start(tokens, expected) <= expI <= |expected|
        invariant i == expI + |tokens| - |expected|
        invariant expI == lo || expI <= width
        invariant expI <= width ==> assessment == MatchSum(CurrentScorer(), tokens, expected, lo, expI)
        invariant expI > width ==> assessment == 0.0
        decreases width - expI
      {
        if expI == |expected| {
          // tokens[i] and expected[expI] are both one past the end
          return Err(ReadPastEnd);
        }
        if tokens[i] == expected[expI] {
          var w := weight(CountOf(wordCount, tokens[i]), width - expI);
          assessment := assessment + w;
        }
        i := i + 1;
        expI := expI + 1;
      }
      r := Ok(assessment * assessor.strength);
    }

    /** `assess` on a view: copies the ids of the view's positions 0 .. size-1, then scores
        them as above. */
    method AssessView(tokens: SentenceView, assessor: Assessor) returns (r: Result<real>)
      requires tokens.Size() > 0 ==> tokens.WellFormed()
      ensures r.Ok? <==> Assessable(CurrentScorer(), assessor)
      ensures r.Err? ==> r.error == ReadPastEnd
      ensures r.Ok? && tokens.Size() > 0 ==>
                r.value == Score(CurrentScorer(), tokens.sentence.tokens[tokens.start..tokens.end], assessor)
      ensures r.Ok? && tokens.Size() <= 0 ==> r.value == Score(CurrentScorer(), [], assessor)
    {
      var tokenIds: seq<int> := [];
      var i := 0;
      while i < tokens.Size()
        invariant 0 <= i <= (if tokens.Size() > 0 then tokens.Size() else 0)
        invariant |tokenIds| == i
        invariant forall k :: 0 <= k < i ==> tokenIds[k] == tokens.sentence.tokens[tokens.start + k]
      {
        tokenIds := tokenIds + [tokens.TokenId(i)];
        i := i + 1;
      }
      if tokens.Size() > 0 {
        assert tokenIds == tokens.sentence.tokens[tokens.start..tokens.end];
      }
      r := Assess(tokenIds, assessor);
    }

    /** The loop of `get_assessment` and `get_assessments` over one successor's assessors. */
    method SumAssessments(from: seq<int>, assessors: seq<Assessor>) returns (r: Result<real>)
      ensures r.Ok? <==> AssessableAll(CurrentScorer(), assessors)
      ensures r.Err? ==> r.error == ReadPastEnd
      ensures r.Ok? ==> r.value == Tally(CurrentScorer(), from, assessors)
    {
      var tally := 0.0;
      for j := 0 to |assessors|
        invariant AssessableAll(CurrentScorer(), assessors[..j])
        invariant tally == Tally(CurrentScorer(), from, assessors[..j])
      {
        var assessment := Assess(from, assessors[j]);
        if assessment.Err? {
          return Err(assessment.error);
        }
        TallySnoc(CurrentScorer(), from, assessors, j);
        tally := tally + assessment.value;
      }
      assert assessors[..|assessors|] == assessors;
      r := Ok(tally);
    }

    /** `get_assessment(from, to)`: the tally of (last id of `from`, to); zero when the last id
        or `to` has no entry. */
    method GetAssessment(from: seq<int>, to: int) returns (r: Result<real>)
      requires Valid() && |from| > 0
      ensures r == Assessment(from, to)
      ensures !Recorded(from[|from| - 1], to) ==> r == Ok(0.0)
      ensures r.Ok? && NonNegative() ==> r.value >= 0.0
    {
      var fromWord := from[|from| - 1];
      if fromWord !in index {
        return Ok(0.0);
      }
      var toIndex := index[fromWord];
      if to !in toIndex {
        return Ok(0.0);
      }
      r := SumAssessments(from, toIndex[to]);
    }

    /** `get_assessment(string from, int to)`: resolves every word of `from` (unknown words fail),
        then scores. */
    method GetAssessmentText(from: string, to: int, separator: char) returns (r: Result<real>)
      requires Valid() && Split(from, separator) != []
      ensures bag.GetIds(Split(from, separator)).Err? ==> r == Err(UnknownToken)
      ensures bag.GetIds(Split(from, separator)).Ok? ==> r == Assessment(bag.GetIds(Split(from, separator)).value, to)
    {
      var fromWords := bag.GetIds(Split(from, separator));
      if fromWords.Err? {
        return Err(fromWords.error);
      }
      r := GetAssessment(fromWords.value, to);
    }

    /** `get_assessment(ids from, string to)`: an unknown `to` fails rather than scoring zero. */
    method GetAssessmentTo(from: seq<int>, to: string) returns (r: Result<real>)
      requires Valid() && (|from| > 0 || to !in bag.tokenList)
      ensures to !in bag.tokenList ==> r == Err(UnknownToken)
      ensures to in bag.tokenList ==> to in bag.tokenIndex && r == Assessment(from, bag.tokenIndex[to])
    {
      var toWord := bag.GetId(to);
      if toWord.Err? {
        return Err(toWord.error);
      }
      r := GetAssessment(from, toWord.value);
    }

    /** `get_assessment(string from, string to)`: `to` is resolved first, then the words of
        `from`. */
    method GetAssessmentTextTo(from: string, to: string, separator: char) returns (r: Result<real>)
      requires Valid() && (Split(from, separator) != [] || to !in bag.tokenList)
      ensures to !in bag.tokenList ==> r == Err(UnknownToken)
      ensures to in bag.tokenList && bag.GetIds(Split(from, separator)).Err? ==> r == Err(UnknownToken)
      ensures to in bag.tokenList && bag.GetIds(Split(from, separator)).Ok? ==>
                to in bag.tokenIndex && r == Assessment(bag.GetIds(Split(from, separator)).value, bag.tokenIndex[to])
    {
      var toWord := bag.GetId(to);
      if toWord.Err? {
        return Err(toWord.error);
      }
      r := GetAssessmentText(from, toWord.value, separator);
    }

    /** `get_assessments`: one candidate per recorded successor of the last id, each with its
        tally, in an unspecified order, and their total; (0, []) when the last id has no entry. */
    method GetAssessments(from: seq<int>) returns (r: Result<Assessments>)
      requires Valid() && |from| > 0
      ensures from[|from| - 1] !in index ==> r == Ok(Assessments(0.0, []))
      ensures from[|from| - 1] in index ==> (r.Ok? <==> AllAssessable(CurrentScorer(), index[from[|from| - 1]]))
      ensures r.Err? ==> r.error == ReadPastEnd
      ensures r.Ok? && from[|from| - 1] in index ==>
                Enumerates(r.value.candidates, TallyMap(CurrentScorer(), from, index[from[|from| - 1]]))
      ensures r.Ok? ==> r.value.total == Total(r.value.candidates)
      ensures r.Ok? ==> (|r.value.candidates| > 0 <==> CanAssess(from))
    {
      var fromWord := from[|from| - 1];
      if fromWord !in index {
        return Ok(Assessments(0.0, []));
      }
      var toIndex := index[fromWord];
      var sc := CurrentScorer();
      var resList: seq<Candidate> := [];
      var totalTally := 0.0;
      var remaining := toIndex.Keys;
      while remaining != {}
        invariant Collected(sc, from, toIndex, remaining, resList)
        invariant totalTally == Total(resList)
        decreases |remaining|
      {
        NoElementEmpty(remaining);
        var to :| to in remaining;
        var tally := SumAssessments(from, toIndex[to]);
        if tally.Err? {
          return Err(tally.error);
        }
        CollectStep(sc, from, toIndex, remaining, resList, to, tally.value);
        resList := resList + [Candidate(tally.value, to)];
        totalTally := totalTally + tally.value;
        remaining := remaining - {to};
      }
      CollectDone(sc, from, toIndex, resList);
      r := Ok(Assessments(totalTally, resList));
    }

    /** `add_sentence`: tokenizes the text against the bag, counts every token occurrence
        (the last one included) and records one assessor per adjacent pair, with the window of
        up to width + 1 ids ending at the "from" token. */
    method AddSentence(sentence: string, separator: char := ' ', strength: real := 1.0)
      requires Valid()
      modifies this, bag
      ensures Valid() && bag.Extends(old(bag.tokenList))
      ensures forall i :: 0 <= i < |Split(sentence, separator)| ==> Split(sentence, separator)[i] in bag.tokenIndex
      ensures var toks := bag.IdsOf(Split(sentence, separator));
              && index == Ingested(old(index), toks, width, strength, Pairs(toks))
              && wordCount == Counted(old(wordCount), toks, |toks|)
      ensures |Split(sentence, separator)| < 2 ==> index == old(index)
      ensures bag.tokenList == Interned(old(bag.tokenList), Split(sentence, separator))
      ensures old(NonNegative()) && strength >= 0.0 ==> NonNegative()
    {
      var rle := new Sentence.FromText(bag, sentence, separator);
      IngestTokens(rle, strength);
      IngestedWellKeyed(old(index), rle.tokens, width, strength, Pairs(rle.tokens), |bag.tokenList|);
      if old(NonNegative()) && strength >= 0.0 {
        IngestedNonNegative(old(index), rle.tokens, width, strength);
      }
    }

    /** The cursor loop of `add_sentence` over the tokenized sentence: every position is counted,
        and every position with a successor records that pair with its window. */
    method IngestTokens(rle: Sentence, strength: real)
      requires rle.Valid()
      modifies this
      ensures index == Ingested(old(index), rle.tokens, width, strength, Pairs(rle.tokens))
      ensures wordCount == Counted(old(wordCount), rle.tokens, |rle.tokens|)
    {
      ghost var toks := rle.tokens;
      ghost var done := 0;
      var respIter := rle.Iterator();
      while respIter.Has()
        invariant fresh(respIter)
        invariant respIter.view.sentence == rle && respIter.view.start == 0 && respIter.view.end == |toks|
        invariant respIter.end == -1
        invariant 0 <= respIter.curr <= |toks|
        invariant respIter.Has() ==> respIter.currId == toks[respIter.curr]
        invariant done == (if respIter.curr < Pairs(toks) then respIter.curr else Pairs(toks))
        invariant index == Ingested(old(index), toks, width, strength, done)
        invariant wordCount == Counted(old(wordCount), toks, respIter.curr)
        decreases |toks| - respIter.curr
      {
        ghost var c := respIter.curr;
        IngestAt(rle, respIter, strength);
        assert wordCount == Counted(old(wordCount), toks, c + 1);
        if respIter.HasNext() {
          IngestedNext(old(index), toks, width, strength, c);
          done := c + 1;
        }
        respIter.Next();
        assert respIter.curr == c + 1;
      }
      assert respIter.curr == |toks|;
    }

    /** The body of the cursor loop of `add_sentence`: the id at the cursor is counted and, when
        the cursor has a next position, that pair is recorded with the window ending at the
        cursor. */
    method IngestAt(rle: Sentence, at: SentenceCursor, strength: real)
      requires at.view.sentence == rle && at.view.start == 0 && at.view.end == |rle.tokens| && at.end == -1
      requires 0 <= at.curr && at.Has() && at.currId == rle.tokens[at.curr]
      modifies this
      ensures wordCount == Bump(old(wordCount), rle.tokens[at.curr])
      ensures at.HasNext() ==>
                index == Record(old(index), rle.tokens[at.curr], rle.tokens[at.curr + 1],
                                Assessor(strength, Window(rle.tokens, at.curr, width)))
      ensures !at.HasNext() ==> index == old(index)
    {
      ghost var toks := rle.tokens;
      ghost var pos := at.curr;
      wordCount := Bump(wordCount, at.currId);
      if at.HasNext() {
        var context := WindowOf(rle, at.curr, width);
        var fromWord := at.currId;
        var next := at.Offset(1);
        var toWord := next.currId;
        assert next.Has();
        assert fromWord == toks[pos] && toWord == toks[pos + 1] && context == Window(toks, pos, width);
        index := Record(index, fromWord, toWord, Assessor(strength, context));
        assert rle.tokens == toks && at.curr == pos;
      }
    }
  }

  /** A generation session: a growing context of ids, mirrored in a result sentence, extended one
      chosen successor at a time. It only reads the chain and the bag. */
  class KovPlusQuery {
    const chain: KovPlusChain
    const bag: WordBag
    const result: Sentence
    var context: seq<int>
    var mySize: int

    /** `my_size`, the context and the result sentence stay in step. */
    ghost predicate Valid()
      reads this, chain, chain.bag, result
    {
      && chain.Valid() && bag == chain.bag && result.bag == bag && result.Valid()
      && result.tokens == context && mySize == |context|
    }

    /** A query seeded with the given ids, added one by one with `add_context`. */
    constructor FromIds(chain: KovPlusChain, start: seq<int>)
      requires chain.Valid()
      ensures Valid() && this.chain == chain && fresh(result) && context == start
    {
      this.chain := chain;
      bag := chain.bag;
      result := new Sentence(chain.bag);
      context := [];
      mySize := 0;
      new;
      for j := 0 to |start|
        invariant Valid() && context == start[..j]
      {
        AddContext(start[j]);
      }
    }

    /** A query seeded with the given words, each resolved with `get(string)`: an unseen word
        fails instead of being interned. */
    static method FromWords(chain: KovPlusChain, start: seq<string>) returns (r: Result<KovPlusQuery>)
      requires chain.Valid()
      ensures r.Ok? <==> chain.bag.GetIds(start).Ok?
      ensures r.Err? ==> r.error == UnknownToken
      ensures r.Ok? ==> fresh(r.value) && fresh(r.value.result) && r.value.Valid() && r.value.chain == chain
      ensures r.Ok? ==> chain.bag.GetIds(start) == Ok(r.value.context)
    {
      var q := new KovPlusQuery.FromIds(chain, []);
      for j := 0 to |start|
        invariant fresh(q) && fresh(q.result) && q.Valid() && q.chain == chain
        invariant chain.bag.GetIds(start[..j]) == Ok(q.context)
      {
        assert start[..j + 1][..j] == start[..j];
        var outcome := q.AddContextWord(start[j]);
        if outcome.Fail? {
          assert chain.bag.GetIds(start[..j + 1]).Err?;
          GetIdsPrefixFails(chain.bag, start, j + 1);
          return Err(outcome.error);
        }
      }
      assert start[..|start|] == start;
      r := Ok(q);
    }

    /** A query seeded with the fields of `start`, as `FromWords` on the split text. */
    static method FromText(chain: KovPlusChain, start: string, separator: char := ' ') returns (r: Result<KovPlusQuery>)
      requires chain.Valid()
      ensures r.Ok? <==> chain.bag.GetIds(Split(start, separator)).Ok?
      ensures r.Err? ==> r.error == UnknownToken
      ensures r.Ok? ==> fresh(r.value) && fresh(r.value.result) && r.value.Valid() && r.value.chain == chain
      ensures r.Ok? ==> chain.bag.GetIds(Split(start, separator)) == Ok(r.value.context)
    {
      r := FromWords(chain, Split(start, separator));
    }

    /** `add_context(int)`: appends the id to the context and to the result. */
    method AddContext(word: int)
      requires Valid()
      modifies this, result
      ensures Valid() && context == old(context) + [word]
    {
      context := context + [word];
      result.Append(word);
      mySize := mySize + 1;
    }

    /** `add_context(string)`: resolves the word with `get(string)`; an unseen word fails and
        changes nothing. */
    method AddContextWord(word: string) returns (r: Outcome)
      requires Valid()
      modifies this, result
      ensures Valid()
      ensures r.Pass? <==> word in bag.tokenList
      ensures r.Pass? ==> context == old(context) + [bag.GetId(word).value]
      ensures r.Fail? ==> context == old(context) && r.error == UnknownToken
    {
      var id := bag.GetId(word);
      if id.Err? {
        return Fail(id.error);
      }
      AddContext(id.value);
      r := Pass;
    }

    /** `size`: the number of ids in the context (and in the result). */
    function Size(): (n: int)
      reads this, chain, chain.bag, result
      requires Valid()
      ensures n == |context| && n == |result.tokens|
    {
      mySize
    }

    /** The choice `make_next` makes with the draw `u`, before it changes anything: the
        successors of the last id are enumerated in some order (`candidates`), and the id `Next`
        picks from them is returned. */
    method Pick(u: real) returns (r: Result<Option<int>>, ghost candidates: seq<Candidate>)
      requires Valid() && |context| > 0 && 0.0 <= u < 1.0
      ensures var f := context[|context| - 1];
              r.Err? <==> f in chain.index && !AllAssessable(chain.CurrentScorer(), chain.index[f])
      ensures r.Err? ==> r.error == ReadPastEnd
      ensures r.Ok? ==> Considered(chain, context, candidates) && r.value == Next(candidates, u)
      ensures r.Ok? && r.value.Some? ==>
                chain.Recorded(context[|context| - 1], r.value.value) && 0 <= r.value.value < |bag.tokenList|
      ensures r.Ok? && chain.NonNegative() ==> (r.value.None? <==> chain.Halts(context))
      ensures r.Ok? && chain.NonNegative() && r.value.Some? ==> chain.Continues(context, r.value.value)
    {
      var assessments := chain.GetAssessments(context);
      if assessments.Err? {
        return Err(assessments.error), [];
      }
      candidates := assessments.value.candidates;
      assert Considered(chain, context, candidates);
      var chosen := Choose(assessments.value.candidates, assessments.value.total, u);
      assert chosen == Next(candidates, u);
      NextIsRecorded(chain, context, candidates, u);
      if chain.NonNegative() {
        NextContinues(chain, context, candidates, u);
      }
      r := Ok(chosen);
    }

    /** `make_next` with the uniform draw `u`: the id `Pick` chooses is appended and its text
        returned; "" and no change when it chooses none. */
    method MakeNext(u: real) returns (r: Result<string>, ghost candidates: seq<Candidate>)
      requires Valid() && |context| > 0 && 0.0 <= u < 1.0
      modifies this, result
      ensures Valid()
      ensures var f := old(context)[|old(context)| - 1];
              r.Err? <==> f in chain.index && !AllAssessable(chain.CurrentScorer(), chain.index[f])
      ensures r.Err? ==> r.error == ReadPastEnd && context == old(context)
      ensures r.Ok? ==> Considered(chain, old(context), candidates)
      ensures r.Ok? && Next(candidates, u).None? ==> r.value == "" && context == old(context)
      ensures r.Ok? && Next(candidates, u).Some? ==>
                context == old(context) + [Next(candidates, u).value] && 0 <= Next(candidates, u).value &&
                bag.GetText(Next(candidates, u).value) == Ok(r.value)
      ensures r.Ok? && Next(candidates, u).Some? ==>
                chain.Recorded(old(context)[|old(context)| - 1], Next(candidates, u).value)
      ensures r.Ok? && chain.NonNegative() ==>
                (Next(candidates, u).None? <==> chain.Halts(old(context))) &&
                (Next(candidates, u).Some? ==> chain.Continues(old(context), Next(candidates, u).value))
      ensures r.Ok? && r.value == "" && Next(candidates, u).Some? ==> Next(candidates, u).value == 0
    {
      var chosen;
      chosen, candidates := Pick(u);
      if chosen.Err? {
        return Err(chosen.error), candidates;
      }
      if chosen.value.None? {
        return Ok(""), candidates;
      }
      AddContext(chosen.value.value);
      r := bag.GetText(chosen.value.value);
      if r.Ok? && r.value == "" {
        EmptyTextIsZero(bag, chosen.value.value);
      }
    }

    /** One `make_next` as `make_up_to` sees it: at most one id is appended, an id other than 0
        exactly when the text is not empty, and nothing is appended with an empty text only when
        the chain halts there. */
    method Advance(u: real, ghost from: nat) returns (word: Result<string>, ghost appended: seq<int>)
      requires Valid() && |context| > 0 && 0.0 <= u < 1.0
      modifies this, result
      ensures Valid() && context == old(context) + appended && |appended| <= 1
      ensures word.Err? ==> word.error == ReadPastEnd && appended == []
      ensures word.Ok? && word.value != "" ==> |appended| == 1 && appended[0] != 0
      ensures word.Ok? && word.value == "" ==> appended == [] || appended == [0]
      ensures word.Ok? && word.value == "" && appended == [] && chain.NonNegative() ==> chain.Halts(context)
      ensures var f := old(context)[|old(context)| - 1];
              word.Err? <==> f in chain.index && !AllAssessable(chain.CurrentScorer(), chain.index[f])
      ensures appended != [] ==> chain.Recorded(old(context)[|old(context)| - 1], appended[0])
      ensures appended != [] && chain.NonNegative() ==> chain.Continues(old(context), appended[0])
      ensures Generated(chain, old(context), from) ==> Generated(chain, context, from)
    {
      ghost var before := context;
      ghost var candidates;
      word, candidates := MakeNext(u);
      if word.Ok? && Next(candidates, u).Some? {
        appended := [Next(candidates, u).value];
        if Generated(chain, before, from) {
          GeneratedSnoc(chain, before, from, appended[0]);
        }
      } else {
        appended := [];
      }
    }

    /** `make_up_to`: calls `make_next` (the n-th call with draw(n)) while the size is below
        `limit`, stopping at the first "" -- either no continuation, or the chosen successor was
        the empty-string id 0, which stays appended. */
    method MakeUpTo(limit: int, draw: nat -> real) returns (r: Outcome)
      requires Valid() && (|context| > 0 || |context| >= limit)
      requires forall n: nat :: 0.0 <= draw(n) < 1.0
      modifies this, result
      ensures Valid()
      ensures |old(context)| <= |context| && context[..|old(context)|] == old(context)
      ensures |old(context)| >= limit ==> context == old(context)
      ensures |old(context)| < limit ==> |context| <= limit
      ensures forall j | |old(context)| <= j < |context| - 1 :: context[j] != 0
      ensures r.Fail? ==> r.error == ReadPastEnd
      ensures r.Fail? ==> |context| > 0 && var f := context[|context| - 1];
                f in chain.index && !AllAssessable(chain.CurrentScorer(), chain.index[f])
      ensures r.Pass? && |context| < limit && chain.NonNegative() ==>
                (|context| > |old(context)| && context[|context| - 1] == 0) || chain.Halts(context)
      ensures Generated(chain, context, |old(context)|)
    {
      var calls: nat := 0;
      ghost var produced: seq<int> := [];
      while mySize < limit
        invariant Valid()
        invariant context == old(context) + produced
        invariant NoneZero(produced)
        invariant |old(context)| >= limit ==> produced == []
        invariant |old(context)| < limit ==> |context| <= limit
        invariant |context| > 0 || |context| >= limit
        invariant Generated(chain, context, |old(context)|)
        decreases limit - mySize
      {
        var word, appended := Advance(draw(calls), |old(context)|);
        if word.Err? {
          return Fail(word.error);
        }
        if word.value == "" {
          break;
        }
        produced := produced + appended;
        calls := calls + 1;
      }
      r := Pass;
    }
  }

  /** No id of `ids` is 0, the id of the empty string. */
  predicate NoneZero(ids: seq<int>)
  {
    forall j | 0 <= j < |ids| :: ids[j] != 0
  }

  /** The id at position `j` of `context` follows the id before it as a recorded successor,
      and, when every strength is non-negative, with a positive tally for the context up to it. */
  ghost predicate Follows(chain: KovPlusChain, context: seq<int>, j: int)
    reads chain
    requires 0 <= j < |context|
  {
    && 0 < j && chain.Recorded(context[j - 1], context[j])
    && (chain.NonNegative() ==> chain.Continues(context[..j], context[j]))
  }

  /** Every id of `context` from position `from` on follows the id before it. */
  ghost predicate Generated(chain: KovPlusChain, context: seq<int>, from: nat)
    reads chain
  {
    forall j | from <= j < |context| :: Follows(chain, context, j)
  }

  /** Appending a successor the chain continues with keeps the context generated. */
  lemma GeneratedSnoc(chain: KovPlusChain, context: seq<int>, from: nat, id: int)
    requires Generated(chain, context, from) && |context| > 0
    requires chain.Recorded(context[|context| - 1], id)
    requires chain.NonNegative() ==> chain.Continues(context, id)
    ensures Generated(chain, context + [id], from)
  {
    var next := context + [id];
    forall j | from <= j < |next|
      ensures Follows(chain, next, j)
    {
      if j < |context| {
        assert Follows(chain, context, j);
        assert next[..j] == context[..j];
      } else {
        assert next[..j] == context;
      }
    }
  }

  /** Only the id 0 (the empty string the bag starts with) has the empty text among the
      interned ids. */
  lemma EmptyTextIsZero(bag: WordBag, id: int)
    requires bag.Valid() && 0 <= id && bag.GetText(id) == Ok("")
    ensures id == 0
  {
    assert bag.tokenList[0] == "";
  }

  /** An unknown word among the first `n` words is unknown in the whole list. */
  lemma GetIdsPrefixFails(bag: WordBag, words: seq<string>, n: nat)
    requires bag.Valid() && n <= |words|
    requires bag.GetIds(words[..n]).Err?
    ensures bag.GetIds(words).Err?
  {
    var i :| 0 <= i < n && words[..n][i] !in bag.tokenList;
    assert words[i] !in bag.tokenList;
  }

  /** One more assessor adds its score to the tally. */
  lemma TallySnoc(sc: Scorer, tokens: seq<int>, assessors: seq<Assessor>, j: nat)
    requires j < |assessors| && AssessableAll(sc, assessors[..j]) && Assessable(sc, assessors[j])
    ensures AssessableAll(sc, assessors[..j + 1])
    ensures Tally(sc, tokens, assessors[..j + 1]) == Tally(sc, tokens, assessors[..j]) + Score(sc, tokens, assessors[j])
  {
    assert assessors[..j + 1][..j] == assessors[..j];
  }

  /** One more recorded position is one more `Record`. */
  lemma IngestedNext(index: Index, toks: seq<int>, width: int, strength: real, n: nat)
    requires n < Pairs(toks)
    ensures Ingested(index, toks, width, strength, n + 1) ==
            Record(Ingested(index, toks, width, strength, n), toks[n], toks[n + 1], Assessor(strength, Window(toks, n, width)))
  {
  }

  /** The inner loop of `add_sentence`: the ids at positions max(0, curr - width) .. curr. */
  method WindowOf(s: Sentence, curr: int, width: int) returns (context: seq<int>)
    requires 0 <= curr < |s.tokens|
    ensures context == Window(s.tokens, curr, width)
  {
    context := [];
    var ctxI := if curr - width > 0 then curr - width else 0;
    ghost var lo := ctxI;
    while ctxI <= curr
      invariant lo <= curr ==> lo <= ctxI <= curr + 1 && context == s.tokens[lo..ctxI]
      invariant lo > curr ==> ctxI == lo && context == []
    {
      context := context + [s.tokens[ctxI]];
      ctxI := ctxI + 1;
    }
  }

  /** The loop state of `get_assessments`: `done` lists, once each and with its tally, exactly the
      successors that are no longer `remaining`. */
  ghost predicate Collected(sc: Scorer, from: seq<int>, successors: map<int, seq<Assessor>>,
                            remaining: set<int>, done: seq<Candidate>)
  {
    && remaining <= successors.Keys
    && (forall j | 0 <= j < |done| ::
          && done[j].to in successors && done[j].to !in remaining
          && AssessableAll(sc, successors[done[j].to])
          && done[j].tally == Tally(sc, from, successors[done[j].to]))
    && (forall j, l | 0 <= j < l < |done| :: done[j].to != done[l].to)
    && (forall t | t in successors && t !in remaining :: t in Tos(done))
  }

  /** Collecting one more successor with its tally keeps the loop state and adds the tally. */
  lemma CollectStep(sc: Scorer, from: seq<int>, successors: map<int, seq<Assessor>>,
                    remaining: set<int>, done: seq<Candidate>, to: int, tally: real)
    requires Collected(sc, from, successors, remaining, done)
    requires to in remaining && AssessableAll(sc, successors[to]) && tally == Tally(sc, from, successors[to])
    ensures Collected(sc, from, successors, remaining - {to}, done + [Candidate(tally, to)])
    ensures Total(done + [Candidate(tally, to)]) == Total(done) + tally
  {
    var next := done + [Candidate(tally, to)];
    assert forall j | 0 <= j < |done| :: next[j] == done[j];
    assert next[|done|] == Candidate(tally, to);
    forall t | t in successors && t !in remaining - {to}
      ensures t in Tos(next)
    {
      if t == to {
        assert Tos(next)[|done|] == t;
      } else {
        var j :| 0 <= j < |done| && Tos(done)[j] == t;
        assert Tos(next)[j] == t;
      }
    }
    TotalSnoc(done, Candidate(tally, to));
  }

  /** With nothing remaining, every successor was assessable and is listed once with its tally. */
  lemma CollectDone(sc: Scorer, from: seq<int>, successors: map<int, seq<Assessor>>, done: seq<Candidate>)
    requires Collected(sc, from, successors, {}, done)
    ensures AllAssessable(sc, successors)
    ensures Enumerates(done, TallyMap(sc, from, successors))
    ensures |successors| > 0 ==> |done| > 0
  {
    forall t | t in successors
      ensures AssessableAll(sc, successors[t])
    {
      assert t in Tos(done);
    }
    if |successors| > 0 {
      NoElementEmpty(successors.Keys);
      var t :| t in successors;
      assert t in Tos(done);
    }
  }

  /** The candidates `make_next` draws from: none when the last id has no entry, otherwise every
      recorded successor once with its tally. */
  ghost predicate Considered(chain: KovPlusChain, from: seq<int>, candidates: seq<Candidate>)
    reads chain
    requires |from| > 0
  {
    var f := from[|from| - 1];
    if f in chain.index then
      AllAssessable(chain.CurrentScorer(), chain.index[f]) &&
      Enumerates(candidates, TallyMap(chain.CurrentScorer(), from, chain.index[f]))
    else candidates == []
  }

  /** A chain with an empty index (as constructed) offers no candidates: nothing can be assessed
      and `make_next` picks nothing, whatever the draw. */
  lemma FreshChainHalts(chain: KovPlusChain, from: seq<int>, candidates: seq<Candidate>, u: real)
    requires chain.index == map[] && |from| > 0 && Considered(chain, from, candidates)
    ensures candidates == [] && Next(candidates, u).None? && chain.Halts(from)
  {
  }

  /** With non-negative strengths every tally is non-negative, and the total is zero exactly when
      the chain has no continuation. */
  lemma HaltsIffZeroTotal(chain: KovPlusChain, from: seq<int>, candidates: seq<Candidate>)
    requires chain.NonNegative() && |from| > 0 && Considered(chain, from, candidates)
    ensures forall j :: 0 <= j < |candidates| ==> candidates[j].tally >= 0.0
    ensures Total(candidates) >= 0.0
    ensures chain.Halts(from) <==> Total(candidates) == 0.0
  {
    var f := from[|from| - 1];
    if f in chain.index {
      var sc := chain.CurrentScorer();
      var successors := chain.index[f];
      var tallies := TallyMap(sc, from, successors);
      forall t | t in tallies
        ensures tallies[t] >= 0.0
      {
        assert forall i :: 0 <= i < |successors[t]| ==> successors[t][i].strength >= 0.0;
      }
      ZeroTotalEnumerated(candidates, tallies);
    }
    PrefixMonotone(candidates, 0, |candidates|);
  }

  /** The running-sum scan of `make_next`: the first candidate whose running tally exceeds
      `selection`, if any. */
  method Scan(candidates: seq<Candidate>, selection: real) returns (chosen: Option<nat>)
    ensures chosen == Select(candidates, selection)
  {
    var soFarTally := 0.0;
    var k := 0;
    while k < |candidates|
      invariant 0 <= k <= |candidates|
      invariant soFarTally == Prefix(candidates, k)
      invariant forall j :: 0 <= j < k ==> selection >= Through(candidates, j)
    {
      soFarTally := soFarTally + candidates[k].tally;
      if selection < soFarTally {
        assert selection < Through(candidates, k);
        return Some(k);
      }
      k := k + 1;
    }
    return None;
  }

  /** The successor `make_next` picks with draw `u`: none when the total is zero, otherwise the
      candidate whose share of the running sum holds the point u * total, if any. */
  function Next(candidates: seq<Candidate>, u: real): (r: Option<int>)
    ensures r.Some? ==> r.value in Tos(candidates)
  {
    if Total(candidates) == 0.0 then None
    else match Select(candidates, u * Total(candidates))
         case None => None
         case Some(k) => assert Tos(candidates)[k] == candidates[k].to; Some(candidates[k].to)
  }

  /** The selection step of `make_next`: the zero-total check, the selection point, the scan. */
  method Choose(candidates: seq<Candidate>, total: real, u: real) returns (chosen: Option<int>)
    requires total == Total(candidates)
    ensures chosen == Next(candidates, u)
  {
    if total == 0.0 {
      return None;
    }
    var k := Scan(candidates, u * total);
    if k.None? {
      return None;
    }
    return Some(candidates[k.value].to);
  }

  /** What `make_next` picks is a recorded successor of the last id, so its text is known. */
  lemma NextIsRecorded(chain: KovPlusChain, from: seq<int>, candidates: seq<Candidate>, u: real)
    requires chain.Valid() && |from| > 0 && Considered(chain, from, candidates)
    ensures Next(candidates, u).Some? ==>
              chain.Recorded(from[|from| - 1], Next(candidates, u).value) &&
              0 <= Next(candidates, u).value < |chain.bag.tokenList|
  {
    var n := Next(candidates, u);
    if n.Some? {
      var j :| 0 <= j < |candidates| && Tos(candidates)[j] == n.value;
      assert candidates[j].to == n.value;
    }
  }

  /** With non-negative strengths, `make_next` picks nothing exactly when the chain has no
      continuation, and what it picks has a positive tally. */
  lemma NextContinues(chain: KovPlusChain, from: seq<int>, candidates: seq<Candidate>, u: real)
    requires chain.NonNegative() && |from| > 0 && Considered(chain, from, candidates)
    requires 0.0 <= u < 1.0
    ensures Next(candidates, u).None? <==> chain.Halts(from)
    ensures Next(candidates, u).Some? ==> chain.Continues(from, Next(candidates, u).value)
  {
    HaltsIffZeroTotal(chain, from, candidates);
    if Total(candidates) != 0.0 {
      SelectPicksPositive(candidates, u);
      var k := Select(candidates, u * Total(candidates)).value;
      var f := from[|from| - 1];
      var to := candidates[k].to;
      assert f in chain.index;
      var tallies := TallyMap(chain.CurrentScorer(), from, chain.index[f]);
      assert to in tallies && candidates[k].tally == tallies[to];
    }
  }
}
