/** Without overlap, and with a first sentence that fits, chunk_text never
    cuts inside a sentence: every chunk is a run of consecutive sentences
    joined by single spaces, and the runs follow each other in order. */
module ChunkRuns {
  import opened TextCleaning
  import opened Segmentation
  import opened Chunking

  /** `chunks` cuts `ss` into consecutive runs: the last chunk is the last
      run joined with single spaces, and the chunks before it cut the
      sentences before that run. */
  predicate Runs(chunks: seq<string>, ss: seq<string>)
    decreases |chunks|
  {
    if chunks == [] then ss == []
    else
      exists k :: 0 <= k < |ss| && chunks[|chunks| - 1] == Join(ss[k..]) && Runs(chunks[..|chunks| - 1], ss[..k])
  }

  /** The last run of a non-empty cut, and where it starts. */
  lemma LastRun(xs: seq<string>, ss: seq<string>) returns (k: nat)
    requires xs != [] && Runs(xs, ss)
    ensures k < |ss| && xs[|xs| - 1] == Join(ss[k..]) && Runs(xs[..|xs| - 1], ss[..k])
    ensures xs[..|xs| - 1] != [] ==> k > 0
  {
    k :| 0 <= k < |ss| && xs[|xs| - 1] == Join(ss[k..]) && Runs(xs[..|xs| - 1], ss[..k]);
  }

  /** A cut whose last run starts at `k`. */
  lemma RunsFrom(xs: seq<string>, last: string, ss: seq<string>, k: nat)
    requires k < |ss| && last == Join(ss[k..]) && Runs(xs, ss[..k])
    ensures Runs(xs + [last], ss)
  {
    var ys := xs + [last];
    assert ys[..|ys| - 1] == xs;
  }

  /** A sentence that starts a new chunk is a run of its own. */
  lemma RunsNew(xs: seq<string>, ss: seq<string>, s: string)
    requires Runs(xs, ss)
    ensures Runs(xs + [s], ss + [s])
  {
    var ts := ss + [s];
    assert ts[..|ss|] == ss;
    assert ts[|ss|..] == [s];
    RunsFrom(xs, s, ts, |ss|);
  }

  /** A sentence appended to the last chunk extends the last run. */
  lemma RunsExtend(xs: seq<string>, last: string, ss: seq<string>, s: string)
    requires Runs(xs + [last], ss)
    ensures Runs(xs + [last + " " + s], ss + [s])
  {
    var zs := xs + [last];
    var k := LastRun(zs, ss);
    assert zs[..|zs| - 1] == xs;
    var ts := ss + [s];
    assert ts[..k] == ss[..k];
    assert ts[k..] == ss[k..] + [s];
    JoinSnoc(ss[k..], s);
    RunsFrom(xs, last + " " + s, ts, k);
  }

  /** Runs joined back give the sentences joined. */
  lemma {:induction false} RunsJoin(xs: seq<string>, ss: seq<string>)
    requires Runs(xs, ss)
    ensures Join(xs) == Join(ss)
    decreases |xs|
  {
    if xs != [] {
      var init, last := xs[..|xs| - 1], xs[|xs| - 1];
      var k := LastRun(xs, ss);
      RunsJoin(init, ss[..k]);
      JoinAfterRun(init, last, ss, k);
      SplitLast(xs);
    }
  }

  lemma PrefixSnoc(ss: seq<string>, n: nat)
    requires 1 <= n <= |ss|
    ensures ss[..n] == ss[..n - 1] + [ss[n - 1]]
  {
  }

  lemma SplitLast(xs: seq<string>)
    requires xs != []
    ensures xs == xs[..|xs| - 1] + [xs[|xs| - 1]]
  {
  }

  lemma JoinAfterRun(init: seq<string>, last: string, ss: seq<string>, k: nat)
    requires k < |ss| && last == Join(ss[k..]) && Join(init) == Join(ss[..k])
    requires init != [] <==> k > 0
    ensures Join(init + [last]) == Join(ss)
  {
    JoinSnoc(init, last);
    if k == 0 {
      assert ss[k..] == ss;
    } else {
      assert ss == ss[..k] + ss[k..];
      JoinConcat(ss[..k], ss[k..]);
    }
  }

  /** What the sentence loop keeps true when it never word-splits and never
      seeds an overlap: the buffer is a trimmed non-empty text, and the
      chunks with the buffer after them cut the sentences seen so far. */
  predicate RunsSoFar(st: PackState, ss: seq<string>)
  {
    st.current != [] && Trimmed(st.current) && Runs(st.chunks + [st.current], ss)
  }

  lemma {:induction false} PackRuns(ss: seq<string>, chunkSize: int, chunkOverlap: int, n: nat)
    requires chunkOverlap <= 0 && AllSolid(ss)
    requires 1 <= n <= |ss| && |ss[0]| <= chunkSize
    ensures RunsSoFar(Pack(ss[..n], chunkSize, chunkOverlap), ss[..n])
    decreases n
  {
    PackSnoc(ss, n - 1, chunkSize, chunkOverlap);
    var s := ss[n - 1];
    assert s != [] && Trimmed(s) by {
      assert s in ss;
    }
    PrefixSnoc(ss, n);
    if n == 1 {
      assert ss[..0] == [];
      FirstSentenceRuns(s, chunkSize, chunkOverlap);
    } else {
      PackRuns(ss, chunkSize, chunkOverlap, n - 1);
      NextSentenceRuns(Pack(ss[..n - 1], chunkSize, chunkOverlap), ss[..n - 1], s, chunkSize, chunkOverlap);
    }
  }

  /** A first sentence that fits becomes the buffer. */
  lemma FirstSentenceRuns(s: string, chunkSize: int, chunkOverlap: int)
    requires s != [] && Trimmed(s) && |s| <= chunkSize
    ensures RunsSoFar(Step(PackState([], []), s, chunkSize, chunkOverlap), [s])
  {
    assert Step(PackState([], []), s, chunkSize, chunkOverlap) == PackState([], s);
    RunsNew([], [], s);
  }

  /** Each later sentence either starts a new run or extends the last. */
  lemma NextSentenceRuns(st: PackState, ss: seq<string>, s: string, chunkSize: int, chunkOverlap: int)
    requires chunkOverlap <= 0 && RunsSoFar(st, ss)
    requires s != [] && Trimmed(s)
    ensures RunsSoFar(Step(st, s, chunkSize, chunkOverlap), ss + [s])
  {
    var next := Step(st, s, chunkSize, chunkOverlap);
    if |st.current| + |s| > chunkSize {
      assert Strip(st.current) == st.current;
      assert next == PackState(st.chunks + [st.current], s);
      RunsNew(st.chunks + [st.current], ss, s);
    } else {
      var c := st.current + " " + s;
      assert next == PackState(st.chunks, c);
      assert c[0] == st.current[0] && c[|c| - 1] == s[|s| - 1];
      RunsExtend(st.chunks, st.current, ss, s);
    }
  }

  /** With `chunk_overlap <= 0` and a first sentence of at most `chunk_size`
      characters, the chunks of a text with content cut its sentences into
      consecutive runs, and joining the chunks with single spaces gives the
      sentences joined with single spaces. */
  lemma ChunksAreSentenceRuns(text: string, chunkSize: int, chunkOverlap: int)
    requires chunkOverlap <= 0 && |Sentences(text)[0]| <= chunkSize
    ensures Clean(text) != [] ==> Runs(Chunks(text, chunkSize, chunkOverlap), Sentences(text))
    ensures Join(Chunks(text, chunkSize, chunkOverlap)) == Join(Sentences(text))
  {
    CleanSentences(text);
    DropBlankRemovesNothing(text, chunkSize, chunkOverlap);
    var ss := Sentences(text);
    if Clean(text) != [] {
      PackRuns(ss, chunkSize, chunkOverlap, |ss|);
      assert ss[..|ss|] == ss;
      var st := Pack(ss, chunkSize, chunkOverlap);
      assert Flush(st) == st.chunks + [st.current];
      RunsJoin(Flush(st), ss);
    } else {
      ChunksEmptyIff(text, chunkSize, chunkOverlap);
    }
  }
}
