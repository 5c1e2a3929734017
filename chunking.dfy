/** DocumentProcessor.chunk_text and process_document: clean the text, cut it
    into sentences, and pack the sentences greedily into chunks, carrying a
    tail of each flushed buffer into the next one. */
module Chunking {
  import opened TextCleaning
  import opened Segmentation

  function Min(a: int, b: int): int
  {
    if a <= b then a else b
  }

  function Max(a: int, b: int): int
  {
    if a <= b then b else a
  }

  // ---------------------------------------------------------------------
  // The packing, as a fold over sentences (and, for an oversized first
  // sentence, over its words)

  /** What the inner word loop has built: pieces already emitted and the
      piece still being filled (`temp_chunk`). */
  datatype WordState = WordState(pieces: seq<string>, temp: string)

  /** One turn of the word loop. */
  function WordStep(st: WordState, word: string, chunkSize: int): WordState
  {
    if |st.temp| + |word| + 1 <= chunkSize then
      WordState(st.pieces, if st.temp != [] then st.temp + " " + word else word)
    else
      WordState(if st.temp != [] then st.pieces + [Strip(st.temp)] else st.pieces, word)
  }

  /** The word loop run over `words`. */
  function WordPack(words: seq<string>, chunkSize: int): WordState
    decreases |words|
  {
    if words == [] then WordState([], [])
    else WordStep(WordPack(words[..|words| - 1], chunkSize), words[|words| - 1], chunkSize)
  }

  /** What the sentence loop has built: `chunks` and `current_chunk`. */
  datatype PackState = PackState(chunks: seq<string>, current: string)

  /** `current_chunk[-chunk_overlap:]`, or all of it when it is not longer
      than `chunk_overlap`: the last `min(chunk_overlap, len)` characters. */
  function Overlap(buffer: string, chunkOverlap: int): (r: string)
    requires chunkOverlap > 0
    ensures |r| == Min(chunkOverlap, |buffer|)
    ensures buffer == buffer[..|buffer| - |r|] + r
  {
    if |buffer| > chunkOverlap then buffer[|buffer| - chunkOverlap..] else buffer
  }

  /** One turn of the sentence loop. With an empty buffer an overflowing
      sentence is necessarily longer than `chunk_size`, so the test of line
      74 always holds and the word split is taken. */
  function Step(st: PackState, sentence: string, chunkSize: int, chunkOverlap: int): PackState
  {
    if |st.current| + |sentence| > chunkSize then
      if st.current != [] then
        PackState(st.chunks + [Strip(st.current)],
                  if chunkOverlap > 0 then Overlap(st.current, chunkOverlap) + " " + sentence else sentence)
      else
        var w := WordPack(SplitWords(sentence), chunkSize);
        PackState(st.chunks + w.pieces, if w.temp != [] then w.temp else st.current)
    else
      PackState(st.chunks, if st.current != [] then st.current + " " + sentence else sentence)
  }

  /** The sentence loop run over `sentences`. */
  function Pack(sentences: seq<string>, chunkSize: int, chunkOverlap: int): PackState
    decreases |sentences|
  {
    if sentences == [] then PackState([], [])
    else Step(Pack(sentences[..|sentences| - 1], chunkSize, chunkOverlap), sentences[|sentences| - 1],
              chunkSize, chunkOverlap)
  }

  lemma PackSnoc(ss: seq<string>, k: nat, chunkSize: int, chunkOverlap: int)
    requires k < |ss|
    ensures Pack(ss[..k + 1], chunkSize, chunkOverlap) == Step(Pack(ss[..k], chunkSize, chunkOverlap), ss[k], chunkSize, chunkOverlap)
  {
    assert ss[..k + 1][..k] == ss[..k];
  }

  lemma WordPackSnoc(words: seq<string>, j: nat, chunkSize: int)
    requires j < |words|
    ensures WordPack(words[..j + 1], chunkSize) == WordStep(WordPack(words[..j], chunkSize), words[j], chunkSize)
  {
    assert words[..j + 1][..j] == words[..j];
  }

  /** The final flush of a non-empty buffer. */
  function Flush(st: PackState): seq<string>
  {
    if st.current != [] then st.chunks + [Strip(st.current)] else st.chunks
  }

  /** `[chunk for chunk in chunks if chunk.strip()]`. */
  function DropBlank(xs: seq<string>): (r: seq<string>)
    ensures forall c :: c in r ==> Strip(c) != [] && c in xs
    ensures forall c :: c in xs && Strip(c) != [] ==> c in r
    ensures (forall c :: c in xs ==> Strip(c) != []) ==> r == xs
  {
    if xs == [] then []
    else
      var head := if Strip(xs[0]) != [] then [xs[0]] else [];
      var rest := DropBlank(xs[1..]);
      assert xs == [xs[0]] + xs[1..];
      head + rest
  }

  /** The sentences chunk_text packs. */
  function Sentences(text: string): seq<string>
  {
    SplitSentences(Clean(text))
  }

  /** The list chunk_text returns. */
  function Chunks(text: string, chunkSize: int, chunkOverlap: int): seq<string>
  {
    DropBlank(Flush(Pack(Sentences(text), chunkSize, chunkOverlap)))
  }

  // ---------------------------------------------------------------------
  // The source's loops

  /** DocumentProcessor.chunk_text. */
  method ChunkText(text: string, chunkSize: int, chunkOverlap: int) returns (chunks: seq<string>)
    ensures chunks == Chunks(text, chunkSize, chunkOverlap)
    ensures chunks == [] <==> Clean(text) == []
    ensures forall c :: c in chunks ==> c != [] && Trimmed(c)
  {
    var cleaned := Clean(text);
    var sentences := SplitSentences(cleaned);
    chunks := [];
    var current := "";
    for k := 0 to |sentences|
      invariant PackState(chunks, current) == Pack(sentences[..k], chunkSize, chunkOverlap)
    {
      PackSnoc(sentences, k, chunkSize, chunkOverlap);
      chunks, current := PackSentence(chunks, current, sentences[k], chunkSize, chunkOverlap);
    }
    assert sentences[..|sentences|] == sentences;
    if current != "" {
      chunks := chunks + [Strip(current)];
    }
    chunks := DropBlank(chunks);
    ChunksEmptyIff(text, chunkSize, chunkOverlap);
    ChunksTrimmed(text, chunkSize, chunkOverlap);
  }
  /** One turn of the sentence loop of chunk_text, on the list of chunks
      and the buffer. */
  method PackSentence(chunks: seq<string>, current: string, sentence: string, chunkSize: int, chunkOverlap: int)
    returns (chunks': seq<string>, current': string)
    ensures PackState(chunks', current') == Step(PackState(chunks, current), sentence, chunkSize, chunkOverlap)
  {
    chunks', current' := chunks, current;
    if |current| + |sentence| > chunkSize {
      if current != "" {
        chunks' := chunks + [Strip(current)];
        if chunkOverlap > 0 {
          var overlapText := if |current| > chunkOverlap then current[|current| - chunkOverlap..] else current;
          current' := overlapText + " " + sentence;
        } else {
          current' := sentence;
        }
      } else {
        if |sentence| > chunkSize {
          var pieces, temp := SplitOversizedSentence(sentence, chunkSize);
          chunks' := chunks + pieces;
          if temp != "" {
            current' := temp;
          }
        } else {
          // Line 90: the buffer is empty, so the sentence alone overflowed.
          assert false;
        }
      }
    } else {
      current' := if current != "" then current + " " + sentence else sentence;
    }
  }


  /** The word loop of chunk_text (lines 76-86) for a sentence that alone
      overflows: the pieces it appends to `chunks`, in order, and the
      `temp_chunk` it leaves. */
  method SplitOversizedSentence(sentence: string, chunkSize: int) returns (pieces: seq<string>, temp: string)
    ensures WordState(pieces, temp) == WordPack(SplitWords(sentence), chunkSize)
  {
    var words := SplitWords(sentence);
    pieces := [];
    temp := "";
    for j := 0 to |words|
      invariant WordState(pieces, temp) == WordPack(words[..j], chunkSize)
    {
      var word := words[j];
      WordPackSnoc(words, j, chunkSize);
      if |temp| + |word| + 1 <= chunkSize {
        temp := if temp != "" then temp + " " + word else word;
      } else {
        if temp != "" {
          pieces := pieces + [Strip(temp)];
        }
        temp := word;
      }
    }
    assert words[..|words|] == words;
  }

  /** DocumentProcessor.process_document, without its console statistics. */
  method ProcessDocument(text: string, chunkSize: int, chunkOverlap: int) returns (chunks: seq<string>)
    ensures chunks == Chunks(text, chunkSize, chunkOverlap)
  {
    chunks := ChunkText(text, chunkSize, chunkOverlap);
  }

  // ---------------------------------------------------------------------
  // Facts about the pieces

  /** A non-empty string ending in a non-space character. */
  predicate EndsSolid(s: string)
  {
    s != [] && !IsSpace(s[|s| - 1])
  }

  predicate AllSolid(ss: seq<string>)
  {
    forall x :: x in ss ==> x != [] && Trimmed(x)
  }

  lemma StripSolid(s: string)
    requires EndsSolid(s)
    ensures Strip(s) != []
  {
    var t := DropSpaces(s);
    assert t != [] && t[|t| - 1] == s[|s| - 1];
  }

  lemma SolidPrefix(ss: seq<string>, k: nat)
    requires AllSolid(ss) && k <= |ss|
    ensures AllSolid(ss[..k])
  {
    assert forall x :: x in ss[..k] ==> x in ss;
  }

  /** The sentences of a cleaned text: `[""]` for the empty text, otherwise
      non-empty sentences without whitespace at their ends. */
  lemma CleanSentences(text: string)
    ensures Clean(text) == [] ==> Sentences(text) == [[]]
    ensures Clean(text) != [] ==> AllSolid(Sentences(text))
  {
    CleanShape(text);
    if Clean(text) != [] {
      SentencesTrimmed(Clean(text));
    }
  }

  /** What the word loop keeps true of the state it has built from
      `words`: the pieces and the piece being filled are trimmed, non-empty
      once a word was seen, within `chunkSize` unless they are a single
      overlong word, and joined back they give the words joined. */
  predicate WordShape(st: WordState, words: seq<string>, chunkSize: int)
  {
    && (st.temp == []) == (words == [])
    && (words == [] ==> st.pieces == [])
    && (words != [] ==>
          && Trimmed(st.temp)
          && (|st.temp| <= chunkSize || st.temp in words)
          && Join(st.pieces + [st.temp]) == Join(words))
    && (forall p :: p in st.pieces ==> p != [] && Trimmed(p) && (|p| <= chunkSize || p in words))
  }

  /** Properties of the word split of an oversized first sentence: every
      emitted piece is at most `chunk_size` long or is a single word, the
      last piece is kept back as the buffer, and joining the pieces with
      that buffer gives back the words in order. */
  lemma WordPackShape(words: seq<string>, chunkSize: int)
    requires forall w :: w in words ==> w != [] && NoSpaceIn(w)
    ensures (WordPack(words, chunkSize).temp == []) == (words == [])
    ensures words == [] ==> WordPack(words, chunkSize).pieces == []
    ensures words != [] ==>
              && Trimmed(WordPack(words, chunkSize).temp)
              && (|WordPack(words, chunkSize).temp| <= chunkSize || WordPack(words, chunkSize).temp in words)
              && Join(WordPack(words, chunkSize).pieces + [WordPack(words, chunkSize).temp]) == Join(words)
    ensures forall p :: p in WordPack(words, chunkSize).pieces ==>
              p != [] && Trimmed(p) && (|p| <= chunkSize || p in words)
  {
    WordPackKeepsShape(words, chunkSize);
  }

  lemma {:induction false} WordPackKeepsShape(words: seq<string>, chunkSize: int)
    requires forall w :: w in words ==> w != [] && NoSpaceIn(w)
    ensures WordShape(WordPack(words, chunkSize), words, chunkSize)
    decreases |words|
  {
    if words != [] {
      var init := words[..|words| - 1];
      var w := words[|words| - 1];
      assert words == init + [w];
      assert w in words;
      assert forall x :: x in init ==> x in words;
      WordPackKeepsShape(init, chunkSize);
      WordStepKeepsShape(WordPack(init, chunkSize), init, w, chunkSize);
    }
  }

  lemma WordStepKeepsShape(st: WordState, init: seq<string>, w: string, chunkSize: int)
    requires WordShape(st, init, chunkSize)
    requires w != [] && NoSpaceIn(w)
    ensures WordShape(WordStep(st, w, chunkSize), init + [w], chunkSize)
  {
    assert w[|w| - 1] in w && w[0] in w;
    if st.temp == [] {
      assert init == [] && st.pieces == [];
      assert init + [w] == [w];
    } else if |st.temp| + |w| + 1 <= chunkSize {
      WordFitsShape(st, init, w, chunkSize);
    } else {
      WordOverflowsShape(st, init, w, chunkSize);
    }
  }

  /** A word that fits is appended to the piece being filled. */
  lemma WordFitsShape(st: WordState, init: seq<string>, w: string, chunkSize: int)
    requires WordShape(st, init, chunkSize) && st.temp != []
    requires w != [] && !IsSpace(w[0]) && !IsSpace(w[|w| - 1])
    requires |st.temp| + |w| + 1 <= chunkSize
    ensures WordShape(WordStep(st, w, chunkSize), init + [w], chunkSize)
  {
    var words := init + [w];
    assert forall x :: x in init ==> x in words;
    JoinExtendLast(st.pieces, st.temp, w);
    JoinSnoc(init, w);
  }

  /** A word that does not fit closes the piece being filled and starts the
      next one. */
  lemma WordOverflowsShape(st: WordState, init: seq<string>, w: string, chunkSize: int)
    requires WordShape(st, init, chunkSize) && st.temp != []
    requires w != [] && !IsSpace(w[0]) && !IsSpace(w[|w| - 1])
    requires |st.temp| + |w| + 1 > chunkSize
    ensures WordShape(WordStep(st, w, chunkSize), init + [w], chunkSize)
  {
    var words := init + [w];
    assert forall x :: x in init ==> x in words;
    assert w in words;
    assert Strip(st.temp) == st.temp;
    assert st.pieces + [Strip(st.temp)] + [w] == (st.pieces + [st.temp]) + [w];
    JoinSnoc(st.pieces + [st.temp], w);
    JoinSnoc(init, w);
  }

  /** Whatever the input, every emitted chunk comes out of `strip()`. */
  lemma {:induction false} PackTrimmed(ss: seq<string>, chunkSize: int, chunkOverlap: int)
    ensures forall c :: c in Pack(ss, chunkSize, chunkOverlap).chunks ==> Trimmed(c)
    decreases |ss|
  {
    if ss != [] {
      var init := ss[..|ss| - 1];
      PackTrimmed(init, chunkSize, chunkOverlap);
      var st := Pack(init, chunkSize, chunkOverlap);
      var s := ss[|ss| - 1];
      if |st.current| + |s| > chunkSize && st.current == [] {
        WordPiecesTrimmed(SplitWords(s), chunkSize);
      }
    }
  }

  lemma {:induction false} WordPiecesTrimmed(words: seq<string>, chunkSize: int)
    ensures forall p :: p in WordPack(words, chunkSize).pieces ==> Trimmed(p)
    decreases |words|
  {
    if words != [] {
      WordPiecesTrimmed(words[..|words| - 1], chunkSize);
    }
  }

  /** For non-empty sentences without whitespace at their ends, the buffer is
      never empty again once a sentence has been read, and every chunk
      emitted so far is non-empty. */
  lemma {:induction false} PackSolid(ss: seq<string>, chunkSize: int, chunkOverlap: int)
    requires ss != [] && AllSolid(ss)
    ensures EndsSolid(Pack(ss, chunkSize, chunkOverlap).current)
    ensures forall c :: c in Pack(ss, chunkSize, chunkOverlap).chunks ==> c != []
    decreases |ss|
  {
    var init := ss[..|ss| - 1];
    var s := ss[|ss| - 1];
    assert s in ss;
    if init == [] {
      FirstStepSolid(s, chunkSize, chunkOverlap);
    } else {
      SolidPrefix(ss, |ss| - 1);
      PackSolid(init, chunkSize, chunkOverlap);
      StepSolid(Pack(init, chunkSize, chunkOverlap), s, chunkSize, chunkOverlap);
    }
  }

  lemma FirstStepSolid(s: string, chunkSize: int, chunkOverlap: int)
    requires s != [] && Trimmed(s)
    ensures EndsSolid(Step(PackState([], []), s, chunkSize, chunkOverlap).current)
    ensures forall c :: c in Step(PackState([], []), s, chunkSize, chunkOverlap).chunks ==> c != []
  {
    if |s| > chunkSize {
      OversizedSentenceSplit(s, chunkSize, chunkOverlap);
      var words := SplitWords(s);
      WordPackShape(words, chunkSize);
      var t := WordPack(words, chunkSize).temp;
      assert t[|t| - 1] in t;
    } else {
      assert s[|s| - 1] in s;
    }
  }

  lemma StepSolid(st: PackState, s: string, chunkSize: int, chunkOverlap: int)
    requires EndsSolid(st.current) && forall c :: c in st.chunks ==> c != []
    requires s != [] && Trimmed(s)
    ensures EndsSolid(Step(st, s, chunkSize, chunkOverlap).current)
    ensures forall c :: c in Step(st, s, chunkSize, chunkOverlap).chunks ==> c != []
  {
    if |st.current| + |s| > chunkSize {
      FlushSolid(st, s, chunkSize, chunkOverlap);
    } else {
      AppendSolid(st, s, chunkSize, chunkOverlap);
    }
  }

  /** On overflow the stripped buffer is emitted and the new buffer ends with
      the sentence. */
  lemma FlushSolid(st: PackState, s: string, chunkSize: int, chunkOverlap: int)
    requires EndsSolid(st.current) && forall c :: c in st.chunks ==> c != []
    requires s != [] && Trimmed(s)
    requires |st.current| + |s| > chunkSize
    ensures EndsSolid(Step(st, s, chunkSize, chunkOverlap).current)
    ensures forall c :: c in Step(st, s, chunkSize, chunkOverlap).chunks ==> c != []
  {
    var next := Step(st, s, chunkSize, chunkOverlap);
    StripSolid(st.current);
    assert next.chunks == st.chunks + [Strip(st.current)];
    if chunkOverlap > 0 {
      var o := Overlap(st.current, chunkOverlap) + " ";
      assert next.current == o + s;
      EndsSolidAppend(o, s);
    } else {
      assert next.current == s;
    }
  }

  /** Otherwise the sentence is appended to the buffer. */
  lemma AppendSolid(st: PackState, s: string, chunkSize: int, chunkOverlap: int)
    requires EndsSolid(st.current) && forall c :: c in st.chunks ==> c != []
    requires s != [] && Trimmed(s)
    requires |st.current| + |s| <= chunkSize
    ensures EndsSolid(Step(st, s, chunkSize, chunkOverlap).current)
    ensures forall c :: c in Step(st, s, chunkSize, chunkOverlap).chunks ==> c != []
  {
    EndsSolidAppend(st.current + " ", s);
  }

  lemma EndsSolidAppend(o: string, s: string)
    requires s != [] && Trimmed(s)
    ensures EndsSolid(o + s)
  {
    assert (o + s)[|o + s| - 1] == s[|s| - 1];
  }



  // ---------------------------------------------------------------------
  // Properties of chunk_text

  /** The empty text leaves the loops with nothing. */
  lemma PackOfEmptyText(chunkSize: int, chunkOverlap: int)
    ensures Pack([[]], chunkSize, chunkOverlap) == PackState([], [])
  {
    var ss: seq<string> := [[]];
    assert ss[..0] == [];
    assert SplitWords([]) == [];
    assert WordPack([], chunkSize) == WordState([], []);
  }

  /** Non-empty, trimmed sentences always give at least one chunk. */
  lemma SolidSentencesGiveChunks(ss: seq<string>, chunkSize: int, chunkOverlap: int)
    requires ss != [] && AllSolid(ss)
    ensures DropBlank(Flush(Pack(ss, chunkSize, chunkOverlap))) != []
  {
    PackSolid(ss, chunkSize, chunkOverlap);
    var st := Pack(ss, chunkSize, chunkOverlap);
    StripSolid(st.current);
    assert Strip(st.current) in Flush(st);
  }

  /** chunk_text returns no chunk exactly when the cleaned text is empty. */
  lemma ChunksEmptyIff(text: string, chunkSize: int, chunkOverlap: int)
    ensures Chunks(text, chunkSize, chunkOverlap) == [] <==> Clean(text) == []
  {
    CleanSentences(text);
    if Clean(text) == [] {
      PackOfEmptyText(chunkSize, chunkOverlap);
    } else {
      SolidSentencesGiveChunks(Sentences(text), chunkSize, chunkOverlap);
    }
  }

  /** Every chunk is non-empty and has no whitespace at either end. */
  lemma ChunksTrimmed(text: string, chunkSize: int, chunkOverlap: int)
    ensures forall c :: c in Chunks(text, chunkSize, chunkOverlap) ==> c != [] && Trimmed(c)
  {
    PackTrimmed(Sentences(text), chunkSize, chunkOverlap);
  }

  /** The filter of line 99 never removes anything: every chunk the loops
      emit is already non-empty. */
  lemma DropBlankRemovesNothing(text: string, chunkSize: int, chunkOverlap: int)
    ensures Chunks(text, chunkSize, chunkOverlap) == Flush(Pack(Sentences(text), chunkSize, chunkOverlap))
  {
    CleanSentences(text);
    var ss := Sentences(text);
    var st := Pack(ss, chunkSize, chunkOverlap);
    PackTrimmed(ss, chunkSize, chunkOverlap);
    if Clean(text) == [] {
      PackOfEmptyText(chunkSize, chunkOverlap);
    } else {
      PackSolid(ss, chunkSize, chunkOverlap);
      StripSolid(st.current);
      forall c | c in Flush(st) ensures Strip(c) != [] {
        if c in st.chunks {
          assert c != [] && Trimmed(c);
        }
      }
    }
  }

  /** On overflow with a non-empty buffer the buffer is emitted stripped,
      and the new buffer is the sentence, preceded, when `chunk_overlap` is
      positive, by the last `min(chunk_overlap, len(buffer))` characters of
      the old buffer and one space. */
  lemma FlushSeedsOverlap(st: PackState, sentence: string, chunkSize: int, chunkOverlap: int)
    requires st.current != [] && |st.current| + |sentence| > chunkSize
    ensures Step(st, sentence, chunkSize, chunkOverlap).chunks == st.chunks + [Strip(st.current)]
    ensures chunkOverlap <= 0 ==> Step(st, sentence, chunkSize, chunkOverlap).current == sentence
    ensures chunkOverlap > 0 ==>
              var next := Step(st, sentence, chunkSize, chunkOverlap).current;
              var m := Min(chunkOverlap, |st.current|);
              && next == st.current[|st.current| - m..] + " " + sentence
              && |next| == m + 1 + |sentence|
  {
  }

  /** Word splitting happens only for the first sentence: once a sentence
      has been read the buffer is never empty again, so the branch of line
      72 cannot be taken for any later sentence. */
  lemma BufferNeverEmptyAfterFirst(text: string, chunkSize: int, chunkOverlap: int, k: nat)
    requires 1 <= k <= |Sentences(text)|
    ensures Pack(Sentences(text)[..k], chunkSize, chunkOverlap).current != [] || Clean(text) == []
  {
    CleanSentences(text);
    if Clean(text) != [] {
      SolidPrefix(Sentences(text), k);
      PackSolid(Sentences(text)[..k], chunkSize, chunkOverlap);
    }
  }

  /** An oversized first sentence is cut at word boundaries: its pieces are
      emitted, each at most `chunk_size` long or a single word, and its last
      piece is kept as the buffer; the pieces and the buffer, joined, are
      the sentence's words in order. */
  lemma FirstSentenceWordSplit(text: string, chunkSize: int, chunkOverlap: int)
    requires Clean(text) != [] && |Sentences(text)[0]| > chunkSize
    ensures var words := SplitWords(Sentences(text)[0]);
            var st := Pack(Sentences(text)[..1], chunkSize, chunkOverlap);
            && words != []
            && st.current != []
            && Join(st.chunks + [st.current]) == Join(words)
            && (forall p :: p in st.chunks + [st.current] ==> |p| <= chunkSize || p in words)
  {
    var ss := Sentences(text);
    assert ss[0] != [] && !IsSpace(ss[0][0]) by {
      CleanSentences(text);
      assert ss[0] in ss;
    }
    assert Pack(ss[..1], chunkSize, chunkOverlap) == Step(PackState([], []), ss[0], chunkSize, chunkOverlap) by {
      PackSnoc(ss, 0, chunkSize, chunkOverlap);
      assert ss[..0] == [];
    }
    OversizedSentenceSplit(ss[0], chunkSize, chunkOverlap);
  }

  /** A sentence that overflows the empty buffer goes through the word loop. */
  lemma OversizedSentenceSplit(s: string, chunkSize: int, chunkOverlap: int)
    requires s != [] && !IsSpace(s[0]) && |s| > chunkSize
    ensures var words := SplitWords(s);
            var st := Step(PackState([], []), s, chunkSize, chunkOverlap);
            && words != []
            && st.current != []
            && Join(st.chunks + [st.current]) == Join(words)
            && (forall p :: p in st.chunks + [st.current] ==> |p| <= chunkSize || p in words)
  {
    var words := SplitWords(s);
    assert words != [] by {
      assert NonSpace(s) != [];
      SomeWord(s);
    }
    StepOnEmptyBuffer(s, chunkSize, chunkOverlap);
    WordPackShape(words, chunkSize);
  }

  lemma StepOnEmptyBuffer(s: string, chunkSize: int, chunkOverlap: int)
    requires |s| > chunkSize
    ensures Step(PackState([], []), s, chunkSize, chunkOverlap)
         == PackState(WordPack(SplitWords(s), chunkSize).pieces, WordPack(SplitWords(s), chunkSize).temp)
  {
  }

  /** When every sentence fits in `chunk_size`, no chunk is longer than
      `chunk_size + 1 + max(chunk_overlap, 0)`: the joining space of line 92
      is not counted, and with overlap the seeded tail comes on top. */
  lemma ChunkLengthBound(text: string, chunkSize: int, chunkOverlap: int)
    requires forall s :: s in Sentences(text) ==> |s| <= chunkSize
    ensures forall c :: c in Chunks(text, chunkSize, chunkOverlap) ==>
              |c| <= chunkSize + 1 + Max(chunkOverlap, 0)
  {
    assert Sentences(text)[0] in Sentences(text);
    PackBound(Sentences(text), chunkSize, chunkOverlap);
  }

  lemma {:induction false} PackBound(ss: seq<string>, chunkSize: int, chunkOverlap: int)
    requires chunkSize >= 0 && forall s :: s in ss ==> |s| <= chunkSize
    ensures var st := Pack(ss, chunkSize, chunkOverlap);
            && |st.current| <= chunkSize + 1 + Max(chunkOverlap, 0)
            && forall c :: c in st.chunks ==> |c| <= chunkSize + 1 + Max(chunkOverlap, 0)
    decreases |ss|
  {
    if ss != [] {
      var init := ss[..|ss| - 1];
      assert forall s :: s in init ==> s in ss;
      assert ss[|ss| - 1] in ss;
      PackBound(init, chunkSize, chunkOverlap);
    }
  }
}
