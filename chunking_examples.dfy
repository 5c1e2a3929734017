/** Worked examples of chunk_text on a concrete text. */
module ChunkingExamples {
  import opened TextCleaning
  import opened Segmentation
  import opened Chunking

  /** The buffer can exceed `chunk_size` by one: three two-character
      sentences, with `chunk_size = 4` and no overlap, give the first two
      sentences joined (five characters) and the third. */
  lemma ThreeSentenceExample(x: string, y: string, z: string)
    requires |x| == 2 && |y| == 2 && |z| == 2
    requires Trimmed(x) && Trimmed(y) && Trimmed(z)
    ensures DropBlank(Flush(Pack([x, y, z], 4, 0))) == [x + " " + y, z]
    ensures |DropBlank(Flush(Pack([x, y, z], 4, 0)))[0]| == 4 + 1
  {
    var xy := x + " " + y;
    OverfullBuffer(x, y, z);
    assert xy != [] && Trimmed(xy) by {
      assert xy[0] == x[0] && xy[|xy| - 1] == y[1];
    }
    NothingBlank(xy, z);
  }

  lemma ChunksOfSentences(text: string, ss: seq<string>, chunkSize: int, chunkOverlap: int)
    requires Sentences(text) == ss
    ensures Chunks(text, chunkSize, chunkOverlap) == DropBlank(Flush(Pack(ss, chunkSize, chunkOverlap)))
  {
  }

  /** Texts such as "A. B. C." split into their three sentences. */
  lemma SentencesExample(a: char, b: char, c: char)
    requires IsWordChar(a) && IsWordChar(b) && IsWordChar(c)
    ensures Sentences([a, '.', ' ', b, '.', ' ', c, '.']) == [[a, '.'], [b, '.'], [c, '.']]
  {
    CleanThreeShortSentences(a, b, c);
    SplitThreeShortSentences(a, b, c);
  }

  /** So "A. B. C." with `chunk_size = 4` and no overlap gives
      `["A. B.", "C."]`, whose first chunk has five characters. */
  lemma ShortSentencesChunks(text: string, a: char, b: char, c: char)
    requires IsWordChar(a) && IsWordChar(b) && IsWordChar(c)
    requires text == [a, '.', ' ', b, '.', ' ', c, '.']
    ensures Chunks(text, 4, 0) == [[a, '.', ' ', b, '.'], [c, '.']]
    ensures |Chunks(text, 4, 0)[0]| == 4 + 1
  {
    var x, y, z := [a, '.'], [b, '.'], [c, '.'];
    SentencesExample(a, b, c);
    ShortSentenceTrimmed(a);
    ShortSentenceTrimmed(b);
    ShortSentenceTrimmed(c);
    ChunksOfSentences(text, [x, y, z], 4, 0);
    ThreeSentenceExample(x, y, z);
    JoinTwoShortSentences(a, b);
  }

  lemma JoinTwoShortSentences(a: char, b: char)
    ensures [a, '.'] + " " + [b, '.'] == [a, '.', ' ', b, '.']
  {
  }


  lemma ShortSentenceTrimmed(a: char)
    requires IsWordChar(a)
    ensures Trimmed([a, '.'])
  {
  }

  lemma NothingBlank(x: string, y: string)
    requires x != [] && y != [] && Trimmed(x) && Trimmed(y)
    ensures DropBlank([x, y]) == [x, y]
  {
  }

  /** The sentence loop over three two-character sentences with
      `chunk_size = 4`: the second joins the first although the buffer then
      holds five characters. */
  lemma OverfullBuffer(x: string, y: string, z: string)
    requires |x| == 2 && |y| == 2 && |z| == 2
    requires Trimmed(x) && Trimmed(y) && Trimmed(z)
    ensures Flush(Pack([x, y, z], 4, 0)) == [x + " " + y, z]
  {
    PackThree(x, y, z);
    var xy := x + " " + y;
    assert xy[0] == x[0] && xy[|xy| - 1] == y[1];
  }

  lemma PackOne(x: string)
    requires |x| == 2
    ensures Pack([x], 4, 0) == PackState([], x)
  {
    assert [x][..0] == [];
  }

  lemma PackTwo(x: string, y: string)
    requires |x| == 2 && |y| == 2
    ensures Pack([x, y], 4, 0) == PackState([], x + " " + y)
  {
    PackOne(x);
    assert [x, y][..1] == [x];
  }

  lemma PackThree(x: string, y: string, z: string)
    requires |x| == 2 && |y| == 2 && |z| == 2
    ensures Pack([x, y, z], 4, 0) == PackState([Strip(x + " " + y)], z)
  {
    assert Pack([x, y, z], 4, 0) == Step(Pack([x, y], 4, 0), z, 4, 0) by {
      assert [x, y, z][..2] == [x, y];
    }
    PackTwo(x, y);
    FlushFullBuffer(x + " " + y, z);
  }

  /** A five-character buffer is flushed before a two-character sentence. */
  lemma FlushFullBuffer(b: string, z: string)
    requires |b| == 5 && |z| == 2
    ensures Step(PackState([], b), z, 4, 0) == PackState([Strip(b)], z)
  {
  }

  /** Three one-letter sentences separated by single spaces are already
      clean. */
  lemma CleanThreeShortSentences(a: char, b: char, c: char)
    requires IsWordChar(a) && IsWordChar(b) && IsWordChar(c)
    ensures Clean([a, '.', ' ', b, '.', ' ', c, '.']) == [a, '.', ' ', b, '.', ' ', c, '.']
  {
    TidyThreeShortSentences(a, b, c);
    CleanFixesTidy([a, '.', ' ', b, '.', ' ', c, '.']);
  }

  lemma TidyThreeShortSentences(a: char, b: char, c: char)
    requires IsWordChar(a) && IsWordChar(b) && IsWordChar(c)
    ensures Tidy([a, '.', ' ', b, '.', ' ', c, '.'])
  {
    AllowedThreeShortSentences(a, b, c);
    PlainSpacedThreeShortSentences(a, b, c);
  }

  lemma AllowedThreeShortSentences(a: char, b: char, c: char)
    requires IsWordChar(a) && IsWordChar(b) && IsWordChar(c)
    ensures AllAllowed([a, '.', ' ', b, '.', ' ', c, '.'])
  {
    var s := [a, '.', ' ', b, '.', ' ', c, '.'];
    forall ch | ch in s ensures Allowed(ch) {
    }
  }

  lemma PlainSpacedThreeShortSentences(a: char, b: char, c: char)
    requires IsWordChar(a) && IsWordChar(b) && IsWordChar(c)
    ensures PlainSpaces([a, '.', ' ', b, '.', ' ', c, '.'])
  {
    var s := [a, '.', ' ', b, '.', ' ', c, '.'];
    forall ch | ch in s && IsSpace(ch) ensures ch == ' ' {
      assert ch == a || ch == '.' || ch == ' ' || ch == b || ch == c;
    }
  }

  lemma SplitThreeShortSentences(a: char, b: char, c: char)
    requires !IsSpace(a) && !IsSpace(b) && !IsSpace(c)
    ensures SplitSentences([a, '.', ' ', b, '.', ' ', c, '.']) == [[a, '.'], [b, '.'], [c, '.']]
  {
    CutFirstShortSentence(a, b, c);
    SplitTwoShortSentences(b, c);
  }

  lemma CutFirstShortSentence(a: char, b: char, c: char)
    requires !IsSpace(a) && !IsSpace(b) && !IsSpace(c)
    ensures SplitSentences([a, '.', ' ', b, '.', ' ', c, '.'])
         == [[a, '.']] + SplitSentences([b, '.', ' ', c, '.'])
  {
    var s := [a, '.', ' ', b, '.', ' ', c, '.'];
    CutAfterTwo(s);
    assert s[..2] == [a, '.'] && s[3..] == [b, '.', ' ', c, '.'];
  }

  lemma SplitTwoShortSentences(b: char, c: char)
    requires !IsSpace(b) && !IsSpace(c)
    ensures SplitSentences([b, '.', ' ', c, '.']) == [[b, '.'], [c, '.']]
  {
    var t := [b, '.', ' ', c, '.'];
    CutAfterTwo(t);
    assert t[..2] == [b, '.'] && t[3..] == [c, '.'];
    assert !IsBoundary([c, '.'], 1);
    SplitWithoutBoundary([c, '.']);
  }

  /** A text whose first sentence is two characters long and is followed by
      one space. */
  lemma CutAfterTwo(s: string)
    requires |s| >= 4 && IsTerminator(s[1]) && s[2] == ' ' && !IsSpace(s[3])
    requires !IsSpace(s[1])
    ensures SplitSentences(s) == [s[..2]] + SplitSentences(s[3..])
  {
    assert !IsBoundary(s, 1);
    assert IsBoundary(s, 2);
    SplitAtFirstBoundary(s, 2);
    assert s[2..][1..] == s[3..];
  }
}
