/** The vocabulary (WordBag) and the tokenized sentence with its views and cursors. */
module Sentences {
  import opened Outcomes
  import opened Fields

  /** The list after interning `token`: unchanged when it is present, otherwise one entry more at
      the end. */
  function Intern(list: seq<string>, token: string): (r: seq<string>)
    ensures list <= r && token in r
    ensures |r| <= |list| + 1
  {
    if token in list then list else list + [token]
  }

  /** The list after interning `words` in order: the words not yet present are appended in the
      order of their first occurrence. */
  function Interned(list: seq<string>, words: seq<string>): seq<string>
  {
    if words == [] then list else Intern(Interned(list, words[..|words| - 1]), words[|words| - 1])
  }

  /** Interning words keeps the old list as a prefix and adds exactly the words not yet present:
      a string is in the result exactly when it was in the list or is one of the words. */
  lemma {:induction false} InternedContents(list: seq<string>, words: seq<string>)
    ensures list <= Interned(list, words)
    ensures forall s :: s in Interned(list, words) <==> s in list || s in words
  {
    if words != [] {
      var n := |words| - 1;
      InternedContents(list, words[..n]);
      assert words == words[..n] + [words[n]];
    }
  }

  /** Each id of `ids` is a position of `list` holding the word at the same position of `words`. */
  ghost predicate Spells(list: seq<string>, ids: seq<int>, words: seq<string>)
  {
    |ids| == |words| && forall j | 0 <= j < |ids| :: 0 <= ids[j] < |list| && list[ids[j]] == words[j]
  }

  /** A list that grows at the end keeps spelling the same ids, and one more id spells one more word. */
  lemma SpellsSnoc(list: seq<string>, grown: seq<string>, ids: seq<int>, words: seq<string>, id: int)
    requires Spells(list, ids, words) && list <= grown && 0 <= id < |grown|
    ensures Spells(grown, ids + [id], words + [grown[id]])
  {
    forall j | 0 <= j < |ids|
      ensures grown[ids[j]] == list[ids[j]]
    {
    }
  }

  /** Append-only interner between strings and integer ids. Id 0 holds the empty string from
      construction on; id -1 is a sentinel that reads as the empty string without a lookup. */
  class WordBag {
    var tokenList: seq<string>
    var tokenIndex: map<string, int>

    /** The list and the index are mutual inverses (so every string has exactly one id). */
    ghost predicate Inverse()
      reads this
    {
      && (forall s | s in tokenIndex :: 0 <= tokenIndex[s] < |tokenList| && tokenList[tokenIndex[s]] == s)
      && (forall i | 0 <= i < |tokenList| :: tokenList[i] in tokenIndex && tokenIndex[tokenList[i]] == i)
    }

    ghost predicate Valid()
      reads this
    {
      Inverse() && |tokenList| > 0 && tokenList[0] == ""
    }

    /** The bag only grows: every id keeps the string it had. */
    ghost predicate Extends(before: seq<string>)
      reads this
    {
      |before| <= |tokenList| && tokenList[..|before|] == before
    }

    constructor ()
      ensures Valid()
      ensures tokenList == [""] && tokenIndex == map["" := 0]
    {
      tokenList := [];
      tokenIndex := map[];
      new;
      var _ := Add("");
    }

    /** `get(int)`: the string of an id; -1 is the empty-string sentinel; any other id outside
        the list fails. */
    function GetText(id: int): (r: Result<string>)
      reads this
      requires Valid()
      ensures r.Ok? <==> id == -1 || 0 <= id < |tokenList|
      ensures id == -1 ==> r == Ok("")
      ensures r.Ok? && id != -1 ==> r.value in tokenIndex && tokenIndex[r.value] == id
      ensures r.Err? ==> r.error == UnknownToken
    {
      if id == -1 then Ok("")
      else if 0 <= id < |tokenList| then Ok(tokenList[id])
      else Err(UnknownToken)
    }

    /** `get(string)`: the id of a string; a string never added fails (no insertion). */
    function GetId(token: string): (r: Result<int>)
      reads this
      requires Valid()
      ensures r.Ok? <==> token in tokenList
      ensures r.Ok? ==> 0 <= r.value < |tokenList| && tokenList[r.value] == token
      ensures r.Err? ==> r.error == UnknownToken
    {
      if token in tokenIndex then Ok(tokenIndex[token]) else Err(UnknownToken)
    }

    /** `get(string)` applied to each word in turn, failing at the first unknown word. */
    function GetIds(words: seq<string>): (r: Result<seq<int>>)
      reads this
      requires Valid()
      ensures r.Ok? <==> forall i :: 0 <= i < |words| ==> words[i] in tokenList
      ensures r.Ok? ==> |r.value| == |words|
      ensures r.Ok? ==> forall i :: 0 <= i < |words| ==> 0 <= r.value[i] < |tokenList| && tokenList[r.value[i]] == words[i]
      ensures r.Err? ==> r.error == UnknownToken
    {
      if words == [] then Ok([])
      else
        match GetIds(words[..|words| - 1])
        case Err(e) => Err(e)
        case Ok(ids) =>
          match GetId(words[|words| - 1])
          case Err(e) => Err(e)
          case Ok(id) => Ok(ids + [id])
    }

    /** `get(int)` applied to each id in turn, failing at the first unknown id. */
    function GetTexts(ids: seq<int>): (r: Result<seq<string>>)
      reads this
      requires Valid()
      ensures r.Ok? <==> forall i :: 0 <= i < |ids| ==> GetText(ids[i]).Ok?
      ensures r.Ok? ==> |r.value| == |ids| && forall i :: 0 <= i < |ids| ==> GetText(ids[i]) == Ok(r.value[i])
    {
      if ids == [] then Ok([])
      else
        match GetTexts(ids[..|ids| - 1])
        case Err(e) => Err(e)
        case Ok(texts) =>
          match GetText(ids[|ids| - 1])
          case Err(e) => Err(e)
          case Ok(t) => Ok(texts + [t])
    }

    /** The ids of interned words, read from the index. */
    ghost function IdsOf(words: seq<string>): (ids: seq<int>)
      reads this
      requires forall i :: 0 <= i < |words| ==> words[i] in tokenIndex
      ensures |ids| == |words|
    {
      var index := tokenIndex;
      seq(|words|, i requires 0 <= i < |words| => index[words[i]])
    }

    /** `add`: the id of `token`, interning it at the end of the list when it is new. */
    method Add(token: string) returns (id: int)
      requires Inverse()
      modifies this
      ensures Inverse()
      ensures 0 <= id < |tokenList| && tokenList[id] == token && tokenIndex[token] == id
      ensures old(token in tokenIndex) ==>
                id == old(tokenIndex[token]) && tokenList == old(tokenList) && tokenIndex == old(tokenIndex)
      ensures old(token !in tokenIndex) ==>
                id == old(|tokenList|) && tokenList == old(tokenList) + [token] && tokenIndex == old(tokenIndex)[token := id]
      ensures tokenList == Intern(old(tokenList), token)
    {
      if token in tokenIndex {
        return tokenIndex[token];
      }
      id := |tokenList|;
      tokenList := tokenList + [token];
      tokenIndex := tokenIndex[token := id];
    }
  }

  /** Under the inverse invariant the list determines the index: two bags with the same list hold
      the same strings under the same ids. */
  lemma IndexDetermined(a: WordBag, b: WordBag)
    requires a.Inverse() && b.Inverse() && a.tokenList == b.tokenList
    ensures a.tokenIndex == b.tokenIndex
  {
    forall s | s in a.tokenIndex
      ensures s in b.tokenIndex && b.tokenIndex[s] == a.tokenIndex[s]
    {
      var i := a.tokenIndex[s];
      assert b.tokenList[i] == s;
    }
    forall s | s in b.tokenIndex
      ensures s in a.tokenIndex
    {
      var i := b.tokenIndex[s];
      assert a.tokenList[i] == s;
    }
  }

  /** An ordered sequence of vocabulary ids over a shared bag. `my_size` is kept beside the
      vector in the C++; `Valid` ties the two. */
  class Sentence {
    const bag: WordBag
    var tokens: seq<int>
    var mySize: int

    ghost predicate Valid()
      reads this
    {
      mySize == |tokens|
    }

    /** The empty sentence over `bag`. */
    constructor (bag: WordBag)
      ensures Valid() && this.bag == bag && tokens == []
    {
      this.bag := bag;
      tokens := [];
      mySize := 0;
    }

    /** A sentence holding the given ids, which are not checked against the bag. */
    constructor FromIds(bag: WordBag, tokens: seq<int>)
      ensures Valid() && this.bag == bag && this.tokens == tokens
    {
      this.bag := bag;
      this.tokens := tokens;
      mySize := |tokens|;
    }

    /** Splits `text` on `separator` and interns each field in order. */
    constructor FromText(bag: WordBag, text: string, separator: char := ' ')
      requires bag.Valid()
      modifies bag
      ensures Valid() && this.bag == bag && bag.Valid() && bag.Extends(old(bag.tokenList))
      ensures |tokens| == |Split(text, separator)|
      ensures forall i :: 0 <= i < |tokens| ==>
                0 <= tokens[i] < |bag.tokenList| && bag.tokenList[tokens[i]] == Split(text, separator)[i]
      ensures forall i :: 0 <= i < |tokens| ==> Split(text, separator)[i] in bag.tokenIndex
      ensures tokens == bag.IdsOf(Split(text, separator))
      ensures bag.tokenList == Interned(old(bag.tokenList), Split(text, separator))
    {
      this.bag := bag;
      var fields := Split(text, separator);
      var ids: seq<int> := [];
      var i := 0;
      while i < |fields|
        invariant 0 <= i <= |fields| && |ids| == i
        invariant bag.Valid() && bag.Extends(old(bag.tokenList))
        invariant Spells(bag.tokenList, ids, fields[..i])
        invariant bag.tokenList == Interned(old(bag.tokenList), fields[..i])
      {
        assert fields[..i + 1] == fields[..i] + [fields[i]];
        ghost var before := bag.tokenList;
        var id := bag.Add(fields[i]);
        SpellsSnoc(before, bag.tokenList, ids, fields[..i], id);
        ids := ids + [id];
        i := i + 1;
      }
      assert fields[..|fields|] == fields;
      assert forall j :: 0 <= j < |ids| ==> bag.tokenIndex[fields[j]] == ids[j];
      tokens := ids;
      mySize := |ids|;
    }

    /** `token(i)`: the text of the id at position `index`. */
    function Token(index: int): (r: Result<string>)
      reads this, bag
      requires bag.Valid() && 0 <= index < |tokens|
      ensures r.Ok? <==> tokens[index] == -1 || 0 <= tokens[index] < |bag.tokenList|
      ensures r.Ok? && tokens[index] != -1 ==> r.value in bag.tokenIndex && bag.tokenIndex[r.value] == tokens[index]
    {
      bag.GetText(tokens[index])
    }

    /** `set_token_id`: overwrites one position; the length and every other id are unchanged. */
    method SetTokenId(index: int, token: int)
      requires Valid() && 0 <= index < |tokens|
      modifies this
      ensures Valid() && |tokens| == |old(tokens)| && tokens[index] == token
      ensures forall j :: 0 <= j < |tokens| && j != index ==> tokens[j] == old(tokens[j])
    {
      tokens := tokens[index := token];
    }

    /** `set_token`: interns the text (the bag may grow; existing ids keep their strings) and
        stores the resulting id at one position. */
    method SetToken(index: int, token: string)
      requires Valid() && bag.Valid() && 0 <= index < |tokens|
      modifies this, bag
      ensures Valid() && bag.Valid() && bag.Extends(old(bag.tokenList))
      ensures bag.tokenList == Intern(old(bag.tokenList), token)
      ensures token in bag.tokenIndex && tokens == old(tokens)[index := bag.tokenIndex[token]]
      ensures bag.tokenList[tokens[index]] == token
    {
      var id := bag.Add(token);
      tokens := tokens[index := id];
    }

    /** `append(int)`: adds one id at the end, without checking it against the bag. */
    method Append(token: int)
      requires Valid()
      modifies this
      ensures Valid() && tokens == old(tokens) + [token] && mySize == old(mySize) + 1
    {
      tokens := tokens + [token];
      mySize := mySize + 1;
    }

    /** `append(string)`: interns the text and adds its id at the end. */
    method AppendText(token: string)
      requires Valid() && bag.Valid()
      modifies this, bag
      ensures Valid() && bag.Valid() && bag.Extends(old(bag.tokenList))
      ensures bag.tokenList == Intern(old(bag.tokenList), token)
      ensures token in bag.tokenIndex && tokens == old(tokens) + [bag.tokenIndex[token]] && mySize == old(mySize) + 1
      ensures bag.tokenList[tokens[|tokens| - 1]] == token
    {
      var id := bag.Add(token);
      tokens := tokens + [id];
      mySize := mySize + 1;
    }

    /** `str`: the token texts joined by single spaces, whatever separator built the sentence;
        fails if some id is unknown to the bag. */
    method Str() returns (r: Result<string>)
      requires Valid() && bag.Valid()
      ensures r.Ok? <==> bag.GetTexts(tokens).Ok?
      ensures r.Ok? ==> r.value == JoinWith(bag.GetTexts(tokens).value, ' ')
      ensures r.Err? ==> r.error == UnknownToken
    {
      var text := "";
      ghost var texts: seq<string> := [];
      var i := 0;
      while i < mySize
        invariant 0 <= i <= mySize && |texts| == i
        invariant forall j :: 0 <= j < i ==> bag.GetText(tokens[j]) == Ok(texts[j])
        invariant text == Rendered(texts, mySize)
      {
        var t := Token(i);
        if t.Err? {
          return Err(t.error);
        }
        RenderedSnoc(texts, t.value, mySize);
        texts := texts + [t.value];
        text := text + t.value;
        if i + 1 < mySize {
          text := text + " ";
        }
        i := i + 1;
      }
      GetTextsPointwise(bag, tokens, texts);
      r := Ok(text);
    }

    /** `view`: the whole sentence as a view. */
    method View() returns (v: SentenceView)
      requires Valid()
      ensures fresh(v) && v.sentence == this && v.start == 0 && v.end == mySize
      ensures v.Size() == |tokens|
    {
      v := new SentenceView(this, 0, mySize);
    }

    /** `slice`: a view of [start, end); neither bound is clamped, so the default `end = -1`
        gives a view of negative size. */
    method Slice(start: int := 0, end: int := -1) returns (v: SentenceView)
      ensures fresh(v) && v.sentence == this && v.start == start && v.end == end
      ensures v.Size() == end - start
      ensures end == -1 && start >= 0 ==> v.Size() < 0 && !v.WellFormed()
    {
      v := new SentenceView(this, start, end);
    }

    /** `iterator`: a cursor over the whole-sentence view starting at `start`, bounded by `end`
        unless `end` is -1. */
    method Iterator(start: int := 0, end: int := -1) returns (c: SentenceCursor)
      requires Valid()
      requires Within(mySize, start, end) ==> 0 <= start
      ensures fresh(c) && fresh(c.view)
      ensures c.view.sentence == this && c.view.start == 0 && c.view.end == mySize
      ensures c.curr == start && c.end == end
      ensures c.Has() ==> c.currId == tokens[start]
    {
      var v := View();
      c := new SentenceCursor(v, start, end);
    }
  }

  /** Texts read one id at a time are the texts `GetTexts` reads. */
  lemma GetTextsPointwise(bag: WordBag, ids: seq<int>, texts: seq<string>)
    requires bag.Valid() && |texts| == |ids|
    requires forall j :: 0 <= j < |ids| ==> bag.GetText(ids[j]) == Ok(texts[j])
    ensures bag.GetTexts(ids) == Ok(texts)
  {
    var r := bag.GetTexts(ids);
    assert r.Ok?;
    assert |r.value| == |texts| && forall j :: 0 <= j < |ids| ==> r.value[j] == texts[j];
    assert r.value == texts;
  }

  /** Whether position `pos` is inside a range of `size` positions bounded by `end` (-1: no bound). */
  predicate Within(size: int, pos: int, end: int)
  {
    pos < size && (end == -1 || pos < end)
  }

  /** A zero-copy window [start, end) over a sentence; positions are shifted by `start`. */
  class SentenceView {
    const sentence: Sentence
    const start: int
    const end: int

    constructor (sentence: Sentence, start: int, end: int)
      ensures this.sentence == sentence && this.start == start && this.end == end
    {
      this.sentence := sentence;
      this.start := start;
      this.end := end;
    }

    /** The bounds every read through the view stays within. */
    ghost predicate WellFormed()
      reads sentence
    {
      0 <= start <= end <= |sentence.tokens|
    }

    /** `size`: end minus start, which is negative for an unclamped `end = -1`. */
    function Size(): (n: int)
      ensures n + start == end
    {
      end - start
    }

    /** `token_id`: the sentence's id at the shifted position. */
    function TokenId(index: int): (id: int)
      reads sentence
      requires 0 <= index + start < |sentence.tokens|
      ensures id == sentence.tokens[index + start]
    {
      sentence.tokens[index + start]
    }

    /** `token`: the text of the sentence's token at the shifted position. */
    function Token(index: int): (r: Result<string>)
      reads sentence, sentence.bag
      requires sentence.bag.Valid() && 0 <= index + start < |sentence.tokens|
      ensures r == sentence.bag.GetText(TokenId(index))
      ensures r.Ok? && TokenId(index) != -1 ==> r.value in sentence.bag.tokenIndex && sentence.bag.tokenIndex[r.value] == TokenId(index)
    {
      sentence.Token(index + start)
    }

    /** `set_token_id`: overwrites exactly position `index + start` of the sentence. */
    method SetTokenId(index: int, token: int)
      requires sentence.Valid() && 0 <= index + start < |sentence.tokens|
      modifies sentence
      ensures sentence.Valid() && sentence.tokens == old(sentence.tokens)[index + start := token]
    {
      sentence.SetTokenId(index + start, token);
    }

    /** `set_token`: interns the text and stores its id at position `index + start`. */
    method SetToken(index: int, token: string)
      requires sentence.Valid() && sentence.bag.Valid() && 0 <= index + start < |sentence.tokens|
      modifies sentence, sentence.bag
      ensures sentence.Valid() && sentence.bag.Valid() && sentence.bag.Extends(old(sentence.bag.tokenList))
      ensures token in sentence.bag.tokenIndex
      ensures sentence.tokens == old(sentence.tokens)[index + start := sentence.bag.tokenIndex[token]]
      ensures sentence.bag.tokenList == Intern(old(sentence.bag.tokenList), token)
    {
      sentence.SetToken(index + start, token);
    }

    /** `str`: the texts of the positions [start, end) joined by single spaces; "" for a view of
        size zero or less. */
    method Str() returns (r: Result<string>)
      requires sentence.bag.Valid()
      requires Size() > 0 ==> WellFormed()
      ensures Size() <= 0 ==> r == Ok("")
      ensures Size() > 0 ==> (r.Ok? <==> sentence.bag.GetTexts(sentence.tokens[start..end]).Ok?)
      ensures Size() > 0 && r.Ok? ==> r.value == JoinWith(sentence.bag.GetTexts(sentence.tokens[start..end]).value, ' ')
      ensures r.Err? ==> r.error == UnknownToken
    {
      var text := "";
      ghost var texts: seq<string> := [];
      ghost var window: seq<int> := if Size() > 0 then sentence.tokens[start..end] else [];
      var mySize := Size();
      var i := 0;
      while i < mySize
        invariant 0 <= i <= |window| && |texts| == i
        invariant forall j :: 0 <= j < i ==> sentence.bag.GetText(window[j]) == Ok(texts[j])
        invariant text == Rendered(texts, mySize)
      {
        var t := Token(i);
        assert TokenId(i) == window[i];
        if t.Err? {
          return Err(t.error);
        }
        RenderedSnoc(texts, t.value, mySize);
        texts := texts + [t.value];
        text := text + t.value;
        if i + 1 < mySize {
          text := text + " ";
        }
        i := i + 1;
      }
      GetTextsPointwise(sentence.bag, window, texts);
      r := Ok(text);
    }

    /** `iterator`: a cursor over the view's own positions 0 .. size-1. */
    method Iterator() returns (c: SentenceCursor)
      requires Within(Size(), 0, end - start) ==> 0 <= start < |sentence.tokens|
      ensures fresh(c) && c.view == this && c.curr == 0 && c.end == end - start
      ensures c.Has() ==> c.currId == sentence.tokens[start]
    {
      c := new SentenceCursor(this, 0, end - start);
    }
  }

  /** A forward cursor over a view. `has` and `has_next` look at the current and the following
      position; the id is loaded only while the cursor is on a position it has. */
  class SentenceCursor {
    const view: SentenceView
    var curr: int
    const end: int
    var currId: int

    /** The sentence position a cursor position reads, when it is in range. */
    ghost predicate Loadable(pos: int)
      reads view.sentence
    {
      Within(view.Size(), pos, end) ==> 0 <= pos + view.start < |view.sentence.tokens|
    }

    /** Loads the id only when the start position is one the cursor has; otherwise the id is
        left indeterminate (here: -1). */
    constructor (view: SentenceView, start: int := 0, end: int := -1)
      requires Within(view.Size(), start, end) ==> 0 <= start + view.start < |view.sentence.tokens|
      ensures this.view == view && curr == start && this.end == end
      ensures Has() ==> currId == view.sentence.tokens[start + view.start]
    {
      this.view := view;
      curr := start;
      this.end := end;
      new;
      if Within(view.Size(), start, end) {
        currId := view.TokenId(start);
      } else {
        currId := -1;
      }
    }

    /** `has`: the current position is below the view's size and below `end` (unless -1). */
    function Has(): (b: bool)
      reads this
      ensures b <==> curr < view.end - view.start && (end == -1 || curr < end)
    {
      Within(view.Size(), curr, end)
    }

    /** `has_next`: the same test one position further on. */
    function HasNext(): (b: bool)
      reads this
      ensures b <==> curr + 1 < view.end - view.start && (end == -1 || curr + 1 < end)
      ensures b ==> Has()
    {
      Within(view.Size(), curr + 1, end)
    }

    /** `next`: moves on by exactly one position and reloads the id if the cursor still has it. */
    method Next()
      requires Loadable(curr + 1)
      modifies this
      ensures curr == old(curr) + 1
      ensures Has() ==> currId == view.sentence.tokens[curr + view.start]
      ensures !Has() ==> currId == old(currId)
    {
      curr := curr + 1;
      if Has() {
        currId := view.TokenId(curr);
      }
    }

    /** `offset`: a new cursor `offs` positions on, over the same view and with the same bound. */
    method Offset(offs: int) returns (c: SentenceCursor)
      requires Loadable(curr + offs)
      ensures fresh(c) && c.view == view && c.curr == curr + offs && c.end == end
      ensures c.Has() ==> c.currId == view.sentence.tokens[curr + offs + view.start]
    {
      c := new SentenceCursor(view, curr + offs, end);
    }

    /** `set_token`: interns the text and stores its id at the cursor's position of the view. */
    method SetToken(token: string)
      requires view.sentence.Valid() && view.sentence.bag.Valid()
      requires 0 <= curr + view.start < |view.sentence.tokens|
      modifies view.sentence, view.sentence.bag
      ensures view.sentence.Valid() && view.sentence.bag.Valid()
      ensures token in view.sentence.bag.tokenIndex
      ensures view.sentence.tokens == old(view.sentence.tokens)[curr + view.start := view.sentence.bag.tokenIndex[token]]
      ensures view.sentence.bag.tokenList == Intern(old(view.sentence.bag.tokenList), token)
    {
      view.SetToken(curr, token);
    }
  }
}
