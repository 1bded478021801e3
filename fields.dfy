/** Splitting text into separator-delimited fields, as a loop of `std::getline(stream, field, sep)`
    does, and joining fields back with a separator, as the `str` methods do. */
module Fields {

  /** Position of the first separator in `s`, or `|s|` when there is none. */
  function FieldEnd(s: string, sep: char): (n: nat)
    ensures n <= |s|
    ensures n < |s| ==> s[n] == sep
    ensures forall k :: 0 <= k < n ==> s[k] != sep
  {
    if s == [] || s[0] == sep then 0 else 1 + FieldEnd(s[1..], sep)
  }

  /** The fields a `getline` loop extracts: every separator ends a field (so empty fields between
      consecutive separators are kept), the text after the last separator is a field only when it
      is non-empty, and empty text has no fields. */
  function Split(s: string, sep: char): (fields: seq<string>)
    ensures forall i :: 0 <= i < |fields| ==> sep !in fields[i]
    ensures s != [] <==> fields != []
    decreases |s|
  {
    if s == [] then []
    else
      var n := FieldEnd(s, sep);
      if n == |s| then [s] else [s[..n]] + Split(s[n + 1..], sep)
  }

  /** The fields separated by single separators, with nothing before the first or after the last. */
  function JoinWith(words: seq<string>, sep: char): string
  {
    if |words| == 0 then ""
    else if |words| == 1 then words[0]
    else words[0] + [sep] + JoinWith(words[1..], sep)
  }

  /** The text a `str` loop has written after the first |words| of n words: the words joined by
      spaces, with a trailing space while more words follow. */
  function Rendered(words: seq<string>, n: int): string
  {
    if 0 < |words| < n then JoinWith(words, ' ') + " " else JoinWith(words, ' ')
  }

  /** One more word extends the written text by that word and, unless it is the last, a space. */
  lemma RenderedSnoc(words: seq<string>, w: string, n: int)
    requires |words| < n
    ensures Rendered(words + [w], n) == Rendered(words, n) + w + (if |words| + 1 < n then " " else "")
  {
    if words != [] {
      JoinWithSnoc(words, w, ' ');
    } else {
      assert words + [w] == [w];
    }
  }

  /** Number of occurrences of `c` in `s`. */
  function Occurrences(s: string, c: char): nat
  {
    if s == [] then 0 else (if s[0] == c then 1 else 0) + Occurrences(s[1..], c)
  }

  /** `s` without one trailing separator. */
  function DropTrailing(s: string, sep: char): string
  {
    if s != [] && s[|s| - 1] == sep then s[..|s| - 1] else s
  }

  /** Appending one more word puts exactly one separator before it. */
  lemma {:induction false} JoinWithSnoc(words: seq<string>, w: string, sep: char)
    requires words != []
    ensures JoinWith(words + [w], sep) == JoinWith(words, sep) + [sep] + w
  {
    if |words| == 1 {
      assert words + [w] == [words[0], w];
    } else {
      assert (words + [w])[1..] == words[1..] + [w];
      JoinWithSnoc(words[1..], w, sep);
    }
  }

  lemma {:induction false} FieldEndOfJoin(a: string, b: string, sep: char)
    requires sep !in a
    ensures FieldEnd(a + [sep] + b, sep) == |a|
  {
    if a != [] {
      assert (a + [sep] + b)[1..] == a[1..] + [sep] + b;
      FieldEndOfJoin(a[1..], b, sep);
    }
  }

  /** Joining the fields reproduces the text, except for one trailing separator, which the
      split dropped: a separator always ends the field before it. */
  lemma {:induction false} JoinSplit(s: string, sep: char)
    ensures JoinWith(Split(s, sep), sep) == DropTrailing(s, sep)
    decreases |s|
  {
    if s != [] {
      var n := FieldEnd(s, sep);
      if n < |s| {
        var head, rest := s[..n], s[n + 1..];
        assert s == head + [sep] + rest;
        if rest == [] {
          assert Split(s, sep) == [head];
        } else {
          var fields := Split(rest, sep);
          assert Split(s, sep) == [head] + fields;
          JoinWithCons(head, fields, sep);
          JoinSplit(rest, sep);
          DropTrailingAppend(head + [sep], rest, sep);
        }
      }
    }
  }

  lemma JoinWithCons(w: string, words: seq<string>, sep: char)
    requires words != []
    ensures JoinWith([w] + words, sep) == w + [sep] + JoinWith(words, sep)
  {
    assert ([w] + words)[1..] == words;
  }

  lemma DropTrailingAppend(a: string, b: string, sep: char)
    requires b != []
    ensures DropTrailing(a + b, sep) == a + DropTrailing(b, sep)
  {
    if b[|b| - 1] == sep {
      assert (a + b)[..|a + b| - 1] == a + b[..|b| - 1];
    }
  }

  /** Splitting the joined text gives the words back when no word holds the separator and the
      last word is not empty (an empty last word would leave a trailing separator, which ends no
      field). */
  lemma {:induction false} SplitJoin(words: seq<string>, sep: char)
    requires forall i :: 0 <= i < |words| ==> sep !in words[i]
    requires words == [] || words[|words| - 1] != ""
    ensures Split(JoinWith(words, sep), sep) == words
  {
    if |words| == 1 {
      assert FieldEnd(words[0], sep) == |words[0]|;
    } else if |words| > 1 {
      var rest := JoinWith(words[1..], sep);
      SplitJoin(words[1..], sep);
      SplitAtFirst(words[0], rest, sep);
      assert words == [words[0]] + words[1..];
    }
  }

  /** A field free of the separator, then a separator, then a non-empty remainder: the split is
      that field followed by the remainder's fields. */
  lemma SplitAtFirst(w: string, rest: string, sep: char)
    requires sep !in w && rest != []
    ensures Split(w + [sep] + rest, sep) == [w] + Split(rest, sep)
  {
    var s := w + [sep] + rest;
    FieldEndOfJoin(w, rest, sep);
    assert s[..|w|] == w;
    assert s[|w| + 1..] == rest;
  }

  /** The field count: one field per separator, plus one for the text after the last separator
      when that text is non-empty. */
  lemma {:induction false} SplitCount(s: string, sep: char)
    ensures |Split(s, sep)| == Occurrences(s, sep) + (if s == [] || s[|s| - 1] == sep then 0 else 1)
    decreases |s|
  {
    if s != [] {
      var n := FieldEnd(s, sep);
      OccurrencesFree(s[..n], sep);
      if n == |s| {
        assert s == s[..n];
      } else {
        var rest := s[n + 1..];
        OccurrencesAtFirst(s, n, sep);
        assert |Split(s, sep)| == 1 + |Split(rest, sep)|;
        SplitCount(rest, sep);
        if rest != [] {
          assert s[|s| - 1] == rest[|rest| - 1];
        }
      }
    }
  }

  /** Cutting the text at a first separator at `n` removes exactly one occurrence. */
  lemma OccurrencesAtFirst(s: string, n: nat, sep: char)
    requires n < |s| && s[n] == sep && Occurrences(s[..n], sep) == 0
    ensures Occurrences(s, sep) == 1 + Occurrences(s[n + 1..], sep)
  {
    var rest := s[n + 1..];
    assert s == s[..n] + ([sep] + rest);
    OccurrencesAppend(s[..n], [sep] + rest, sep);
    assert ([sep] + rest)[1..] == rest;
  }

  lemma {:induction false} OccurrencesFree(s: string, c: char)
    requires forall k :: 0 <= k < |s| ==> s[k] != c
    ensures Occurrences(s, c) == 0
  {
    if s != [] {
      OccurrencesFree(s[1..], c);
    }
  }

  lemma {:induction false} OccurrencesAppend(a: string, b: string, c: char)
    ensures Occurrences(a + b, c) == Occurrences(a, c) + Occurrences(b, c)
  {
    if a != [] {
      assert (a + b)[1..] == a[1..] + b;
      OccurrencesAppend(a[1..], b, c);
    } else {
      assert a + b == b;
    }
  }
}
