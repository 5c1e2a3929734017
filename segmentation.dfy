/** The two ways chunk_text cuts text: into sentences with
    `re.split(r'(?<=[.!?])\s+', text)`, and into words with `str.split()`;
    and `" ".join`, which glues pieces back together. */
module Segmentation {
  import opened TextCleaning

  /** A character after which a sentence may end. */
  predicate IsTerminator(c: char)
  {
    c == '.' || c == '!' || c == '?'
  }

  /** Position `i` of `s` starts a match of `(?<=[.!?])\s+`. */
  predicate IsBoundary(s: string, i: int)
  {
    0 < i < |s| && IsTerminator(s[i - 1]) && IsSpace(s[i])
  }

  /** `s` holds no sentence boundary. */
  predicate NoBoundary(s: string)
  {
    forall i :: 0 < i < |s| ==> !IsBoundary(s, i)
  }

  /** `s` holds no whitespace. */
  predicate NoSpaceIn(s: string)
  {
    forall c :: c in s ==> !IsSpace(c)
  }

  /** The first boundary of `s` at or after `j`, or `|s|` when there is none. */
  function FindBoundary(s: string, j: nat): (i: nat)
    requires 1 <= j <= |s|
    ensures j <= i <= |s|
    ensures i < |s| ==> IsBoundary(s, i)
    ensures forall k :: j <= k < i ==> !IsBoundary(s, k)
    decreases |s| - j
  {
    if j == |s| || IsBoundary(s, j) then j else FindBoundary(s, j + 1)
  }

  /** `re.split(r'(?<=[.!?])\s+', s)`: cut after every `.`, `!` or `?` that
      is followed by whitespace, dropping that whitespace. The list is never
      empty; the empty text gives `[""]`. */
  function SplitSentences(s: string): (r: seq<string>)
    ensures |r| >= 1
    decreases |s|
  {
    if |s| < 2 then [s]
    else
      var i := FindBoundary(s, 1);
      if i == |s| then [s] else [s[..i]] + SplitSentences(DropSpaces(s[i..]))
  }

  /** The length of the run of non-space characters that starts `t`. */
  function WordLength(t: string): (n: nat)
    ensures n <= |t|
    ensures forall k :: 0 <= k < n ==> !IsSpace(t[k])
    ensures n == |t| || IsSpace(t[n])
  {
    if t == [] || IsSpace(t[0]) then 0 else 1 + WordLength(t[1..])
  }

  /** `s.split()`: the maximal runs of non-space characters, in order; each
      word is non-empty and holds no whitespace. */
  function SplitWords(s: string): (ws: seq<string>)
    ensures forall w :: w in ws ==> w != [] && NoSpaceIn(w)
    decreases |s|
  {
    var t := DropSpaces(s);
    if t == [] then []
    else
      var n := WordLength(t);
      FirstWordHasNoSpace(t);
      [t[..n]] + SplitWords(t[n..])
  }

  lemma FirstWordHasNoSpace(t: string)
    ensures NoSpaceIn(t[..WordLength(t)])
  {
    var n := WordLength(t);
    forall c | c in t[..n] ensures !IsSpace(c) {
      var k :| 0 <= k < n && t[..n][k] == c;
    }
  }

  /** `" ".join(xs)`. */
  function Join(xs: seq<string>): string
  {
    if |xs| == 0 then "" else if |xs| == 1 then xs[0] else xs[0] + " " + Join(xs[1..])
  }

  // ---------------------------------------------------------------------
  // Join

  lemma {:induction false} JoinSnoc(xs: seq<string>, y: string)
    ensures Join(xs + [y]) == if xs == [] then y else Join(xs) + " " + y
  {
    if |xs| == 0 {
      assert xs + [y] == [y];
    } else if |xs| == 1 {
      assert xs + [y] == [xs[0], y];
    } else {
      assert (xs + [y])[1..] == xs[1..] + [y];
      JoinSnoc(xs[1..], y);
    }
  }

  /** Joining a list whose last piece is extended by `" " + y` is joining
      the list with `y` added at its end. */
  lemma JoinExtendLast(xs: seq<string>, last: string, y: string)
    ensures Join(xs + [last + " " + y]) == Join(xs + [last]) + " " + y
  {
    JoinSnoc(xs, last + " " + y);
    JoinSnoc(xs, last);
  }

  /** Joining two non-empty lists one after the other puts one space between
      the two joins. */
  lemma {:induction false} JoinConcat(a: seq<string>, b: seq<string>)
    requires a != [] && b != []
    ensures Join(a + b) == Join(a) + " " + Join(b)
  {
    if |a| == 1 {
      assert a + b == [a[0]] + b;
      if |b| == 1 {
        assert [a[0]] + b == [a[0], b[0]];
      } else {
        assert ([a[0]] + b)[1..] == b;
      }
    } else {
      assert (a + b)[1..] == a[1..] + b;
      JoinConcat(a[1..], b);
    }
  }

  lemma {:induction false} NonSpaceJoinCons(x: string, rest: seq<string>)
    requires rest != []
    ensures NonSpace(Join([x] + rest)) == NonSpace(x) + NonSpace(Join(rest))
  {
    assert ([x] + rest)[1..] == rest;
    NonSpaceAppend(x + " ", Join(rest));
    NonSpaceAppend(x, " ");
  }

  // ---------------------------------------------------------------------
  // Sentences

  /** The sentences of a non-empty text without whitespace at its ends are
      non-empty and have no whitespace at their ends. */
  lemma {:induction false} SentencesTrimmed(s: string)
    requires s != [] && Trimmed(s)
    ensures forall x :: x in SplitSentences(s) ==> x != [] && Trimmed(x)
    decreases |s|
  {
    if |s| < 2 {
      assert SplitSentences(s) == [s];
    } else {
      var i := FindBoundary(s, 1);
      if i == |s| {
        assert SplitSentences(s) == [s];
      } else {
        var first, rest := s[..i], DropSpaces(s[i..]);
        assert first != [] && Trimmed(first) by {
          assert first[0] == s[0] && first[|first| - 1] == s[i - 1];
        }
        assert rest != [] && Trimmed(rest) by {
          assert s[i..][|s[i..]| - 1] == s[|s| - 1];
          TrimmedTail(s[i..]);
        }
        SentencesTrimmed(rest);
        var tail := SplitSentences(rest);
        assert SplitSentences(s) == [first] + tail;
        assert forall x :: x in [first] + tail ==> x == first || x in tail;
      }
    }
  }

  /** Dropping the leading whitespace of a text that ends in a non-space
      character leaves a non-empty trimmed text. */
  lemma TrimmedTail(t: string)
    requires t != [] && !IsSpace(t[|t| - 1])
    ensures DropSpaces(t) != [] && Trimmed(DropSpaces(t))
  {
    var r := DropSpaces(t);
    assert r != [] && r[|r| - 1] == t[|t| - 1];
  }

  /** Every sentence but the last ends with `.`, `!` or `?`; no sentence
      holds a boundary, so the text is cut at every boundary. */
  lemma SentencesCutAtEveryBoundary(s: string)
    ensures forall k :: 0 <= k < |SplitSentences(s)| ==> NoBoundary(SplitSentences(s)[k])
    ensures forall k :: 0 <= k < |SplitSentences(s)| - 1 ==>
              SplitSentences(s)[k] != [] && IsTerminator(SplitSentences(s)[k][|SplitSentences(s)[k]| - 1])
  {
    SentencesHoldNoBoundary(s);
    SentencesEndInTerminator(s);
    var r := SplitSentences(s);
    forall k | 0 <= k < |r| - 1 ensures r[k] != [] && IsTerminator(r[k][|r[k]| - 1]) {
      assert EndsSentence(r[k]);
    }
  }

  lemma {:induction false} SentencesHoldNoBoundary(s: string)
    ensures forall x :: x in SplitSentences(s) ==> NoBoundary(x)
    decreases |s|
  {
    if |s| < 2 {
      assert SplitSentences(s) == [s];
    } else {
      var i := FindBoundary(s, 1);
      if i == |s| {
        assert SplitSentences(s) == [s];
      } else {
        var first, rest := s[..i], DropSpaces(s[i..]);
        SentencesHoldNoBoundary(rest);
        var tail := SplitSentences(rest);
        assert SplitSentences(s) == [first] + tail;
        assert NoBoundary(first) by {
          forall k | 0 < k < |first| ensures !IsBoundary(first, k) {
            assert !IsBoundary(s, k);
          }
        }
        assert forall x :: x in [first] + tail ==> x == first || x in tail;
      }
    }
  }

  /** `x` is non-empty and ends with `.`, `!` or `?`. */
  predicate EndsSentence(x: string)
  {
    x != [] && IsTerminator(x[|x| - 1])
  }

  /** Every piece but the last ends a sentence. */
  predicate ClosedBeforeLast(r: seq<string>)
  {
    forall k :: 0 <= k < |r| - 1 ==> EndsSentence(r[k])
  }

  lemma {:induction false} SentencesEndInTerminator(s: string)
    ensures ClosedBeforeLast(SplitSentences(s))
    decreases |s|
  {
    if |s| < 2 {
      assert SplitSentences(s) == [s];
    } else {
      var i := FindBoundary(s, 1);
      if i == |s| {
        assert SplitSentences(s) == [s];
      } else {
        var first, rest := s[..i], DropSpaces(s[i..]);
        SentencesEndInTerminator(rest);
        assert EndsSentence(first) by {
          assert first[|first| - 1] == s[i - 1];
        }
        assert SplitSentences(s) == [first] + SplitSentences(rest);
        ClosedCons(first, SplitSentences(rest));
      }
    }
  }

  lemma ClosedCons(first: string, tail: seq<string>)
    requires EndsSentence(first) && ClosedBeforeLast(tail)
    ensures ClosedBeforeLast([first] + tail)
  {
    var r := [first] + tail;
    forall k | 0 <= k < |r| - 1 ensures EndsSentence(r[k]) {
      if k > 0 {
        assert r[k] == tail[k - 1];
      }
    }
  }

  /** Splitting into sentences drops only whitespace: the non-space
      characters of the joined sentences are those of the text. */
  lemma {:induction false} SentencesKeepContent(s: string)
    ensures NonSpace(Join(SplitSentences(s))) == NonSpace(s)
    decreases |s|
  {
    if |s| >= 2 {
      var i := FindBoundary(s, 1);
      if i < |s| {
        var rest := DropSpaces(s[i..]);
        SentencesKeepContent(rest);
        NonSpaceJoinCons(s[..i], SplitSentences(rest));
        NonSpaceDropSpaces(s[i..]);
        assert s == s[..i] + s[i..];
        NonSpaceAppend(s[..i], s[i..]);
      }
    }
  }

  /** A text is cut at its first boundary. */
  lemma SplitAtFirstBoundary(s: string, i: nat)
    requires 1 <= i < |s| && IsBoundary(s, i)
    requires forall k :: 1 <= k < i ==> !IsBoundary(s, k)
    ensures SplitSentences(s) == [s[..i]] + SplitSentences(DropSpaces(s[i..]))
  {
    FindBoundaryIsFirst(s, 1, i);
  }

  /** A text without a boundary is a single sentence. */
  lemma SplitWithoutBoundary(s: string)
    requires NoBoundary(s)
    ensures SplitSentences(s) == [s]
  {
    if |s| >= 2 {
      FindBoundaryIsFirst(s, 1, |s|);
    }
  }

  lemma {:induction false} FindBoundaryIsFirst(s: string, j: nat, i: nat)
    requires 1 <= j <= i <= |s|
    requires i < |s| ==> IsBoundary(s, i)
    requires forall k :: j <= k < i ==> !IsBoundary(s, k)
    ensures FindBoundary(s, j) == i
    decreases i - j
  {
    if j < i {
      FindBoundaryIsFirst(s, j + 1, i);
    }
  }

  // ---------------------------------------------------------------------
  // Words

  /** A text with any non-space character has at least one word. */
  lemma SomeWord(s: string)
    requires NonSpace(s) != []
    ensures SplitWords(s) != []
  {
    if DropSpaces(s) == [] {
      NonSpaceDropSpaces(s);
    }
  }

  /** Splitting into words drops only whitespace. */
  lemma {:induction false} WordsKeepContent(s: string)
    ensures NonSpace(Join(SplitWords(s))) == NonSpace(s)
    decreases |s|
  {
    var t := DropSpaces(s);
    NonSpaceDropSpaces(s);
    if t != [] {
      var n := WordLength(t);
      var word, rest := t[..n], t[n..];
      FirstWordSplit(s, t, n);
      NonSpaceSplit(t, n);
      NonSpaceJoinWord(word, SplitWords(rest));
      WordsKeepContent(rest);
    } else {
      assert SplitWords(s) == [];
    }
  }

  /** Splitting into words and joining the words with single spaces is
      collapsing every whitespace run to one space and stripping both ends:
      `" ".join(s.split()) == re.sub(r'\s+', ' ', s).strip()`. */
  lemma {:induction false} WordsRoundTrip(s: string)
    ensures Join(SplitWords(s)) == Strip(CollapseWhitespace(s))
    decreases |s|
  {
    var t := DropSpaces(s);
    StripCollapseDropSpaces(s);
    if t == [] {
      assert SplitWords(s) == [];
    } else {
      var n := WordLength(t);
      FirstWordSplit(s, t, n);
      WordsRoundTrip(t[n..]);
      WordsRoundTripStep(t, n);
    }
  }

  /** Leading whitespace changes neither the words nor the collapsed and
      stripped text. */
  lemma StripCollapseDropSpaces(s: string)
    ensures Strip(CollapseWhitespace(s)) == Strip(CollapseWhitespace(DropSpaces(s)))
  {
    if s != [] && IsSpace(s[0]) {
      var d := DropSpaces(s[1..]);
      assert DropSpaces(s) == d;
      CollapseHeadSpace(s);
      StripLeadingSpace(CollapseWhitespace(d));
    }
  }

  lemma WordsRoundTripStep(t: string, n: nat)
    requires t != [] && !IsSpace(t[0]) && n == WordLength(t)
    requires Join(SplitWords(t[n..])) == Strip(CollapseWhitespace(t[n..]))
    ensures Strip(CollapseWhitespace(t)) == Join([t[..n]] + SplitWords(t[n..]))
  {
    var word, rest := t[..n], t[n..];
    FirstWordTrimmed(t, n);
    CollapseFirstWord(t, n);
    if rest == [] {
      assert SplitWords(rest) == [];
      LastWord(word, SplitWords(rest), CollapseWhitespace(rest));
    } else {
      assert IsSpace(rest[0]) by {
        assert rest[0] == t[n];
      }
      AfterWord(word, rest);
    }
  }

  /** A word followed by whitespace and the rest of the text. */
  lemma AfterWord(word: string, rest: string)
    requires word != [] && Trimmed(word) && rest != [] && IsSpace(rest[0])
    requires Join(SplitWords(rest)) == Strip(CollapseWhitespace(rest))
    ensures Strip(word + CollapseWhitespace(rest)) == Join([word] + SplitWords(rest))
  {
    var ws := SplitWords(rest);
    var r := DropSpaces(rest);
    assert CollapseWhitespace(rest) == " " + CollapseWhitespace(r) by {
      assert r == DropSpaces(rest[1..]);
      CollapseHeadSpace(rest);
    }
    if r == [] {
      assert ws == [];
      LastWord(word, ws, CollapseWhitespace(rest));
    } else {
      var d := CollapseWhitespace(r);
      CollapseShape(r);
      assert ws != [] by {
        FirstWordSplit(rest, r, WordLength(r));
      }
      MoreWords(word, ws, d);
    }
  }

  /** The first word of a text that starts with content is non-empty and
      trimmed. */
  lemma FirstWordTrimmed(t: string, n: nat)
    requires t != [] && !IsSpace(t[0]) && n == WordLength(t)
    ensures t[..n] != [] && Trimmed(t[..n])
  {
    assert n >= 1;
    assert t[..n][0] == t[0] && t[..n][n - 1] == t[n - 1];
  }

  /** Collapsing a text that starts with a word keeps the word as it is. */
  lemma CollapseFirstWord(t: string, n: nat)
    requires t != [] && !IsSpace(t[0]) && n == WordLength(t)
    ensures CollapseWhitespace(t) == t[..n] + CollapseWhitespace(t[n..])
  {
    var word, rest := t[..n], t[n..];
    assert t == word + rest;
    assert word[|word| - 1] == t[n - 1];
    CollapseAppend(word, rest);
    CollapseNoSpace(word);
  }

  /** A last word, followed by nothing or by one space. */
  lemma LastWord(word: string, ws: seq<string>, c: string)
    requires word != [] && Trimmed(word) && ws == [] && (c == [] || c == " ")
    ensures Strip(word + c) == Join([word] + ws)
  {
    assert [word] + ws == [word];
    if c == [] {
      assert word + c == word;
    } else {
      StripWordSpace(word);
    }
  }

  /** A word, one space, and collapsed text that starts with content. */
  lemma MoreWords(word: string, ws: seq<string>, d: string)
    requires word != [] && !IsSpace(word[0]) && d != [] && !IsSpace(d[0])
    requires ws != [] && Join(ws) == Strip(" " + d)
    ensures Strip(word + (" " + d)) == Join([word] + ws)
  {
    StripLeadingSpace(d);
    StripWordSpaceText(word, d);
    assert ([word] + ws)[1..] == ws;
  }

  /** The first word of a text with content, and the text after it. */
  lemma FirstWordSplit(s: string, t: string, n: nat)
    requires t == DropSpaces(s) && t != [] && n == WordLength(t)
    ensures SplitWords(s) == [t[..n]] + SplitWords(t[n..])
  {
  }

  lemma NonSpaceJoinWord(word: string, ws: seq<string>)
    ensures NonSpace(Join([word] + ws)) == NonSpace(word) + NonSpace(Join(ws))
  {
    if ws != [] {
      NonSpaceJoinCons(word, ws);
    } else {
      assert [word] + ws == [word];
    }
  }
}
