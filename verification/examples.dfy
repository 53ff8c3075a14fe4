/** Worked files that pin down the chunk-boundary policy of the chunk scan:
    a read starts whenever the cursor is still before the chunk's end, even
    if the token it reads begins at or after that end, and a chunk starting
    inside a token reads that token's tail as a token of its own. */
module Examples {
  import opened CType
  import opened Scanner
  import opened Chunks
  import opened FileCounter
  import opened Wrappers
  import opened Coordinator

  /** A token without NUL matches exactly when its folded form is the
      target. */
  lemma MatchesNulFree(w: string, target: string)
    requires NulFree(w)
    ensures Matches(w, target) <==> FoldCase(w) == target
  {
    NulFreeCStr(w);
  }

  lemma MatchCountCons(w: string, ts: seq<string>, target: string)
    ensures MatchCount([w] + ts, target) == (if Matches(w, target) then 1 else 0) + MatchCount(ts, target)
  {
    assert ([w] + ts)[1..] == ts;
  }

  /** Two threads split a file at half its size, rounded down. */
  lemma PlanOfTwo(size: nat)
    ensures Plan(size, 2) == [Chunk(0, size / 2), Chunk(size / 2, size)]
  {
  }

  /** With two threads that both open the file, the total is the first
      chunk's count plus the second's. */
  lemma TwoChunkTotal(s: string, target: string, p: seq<Chunk>)
    requires |p| == 2
    ensures Sum(ChunkCounts(s, target, p, [true, true]))
         == MatchCount(ChunkTokens(s, p[0].start, p[0].end), target)
          + MatchCount(ChunkTokens(s, p[1].start, p[1].end), target)
  {
    var cs := ChunkCounts(s, target, p, [true, true]);
    assert cs == [cs[0], cs[1]];
    SumPair(cs[0], cs[1]);
  }

  lemma FirstGoRead()
    ensures ReadToken("Go Go gopher", 0) == Token("Go", 2)
  {
  }

  lemma SecondGoRead()
    ensures ReadToken("Go Go gopher", 2) == Token("Go", 5)
  {
  }

  lemma GopherRead()
    ensures ReadToken("Go Go gopher", 5) == Token("gopher", 12)
  {
  }

  lemma SecondChunkRead()
    ensures ReadToken("Go Go gopher", 6) == Token("gopher", 12)
  {
  }

  lemma GoGopherReads()
    ensures ReadToken("Go Go gopher", 0) == Token("Go", 2)
    ensures ReadToken("Go Go gopher", 2) == Token("Go", 5)
    ensures ReadToken("Go Go gopher", 5) == Token("gopher", 12)
    ensures ReadToken("Go Go gopher", 6) == Token("gopher", 12)
  {
    FirstGoRead();
    SecondGoRead();
    GopherRead();
    SecondChunkRead();
  }

  lemma GoGopherTokens()
    ensures Tokens("Go Go gopher", 0) == ["Go", "Go", "gopher"]
  {
    var s := "Go Go gopher";
    GoGopherReads();
    NoTokensAtEnd(s);
    assert Tokens(s, 5) == ["gopher"];
    assert Tokens(s, 2) == ["Go", "gopher"];
  }

  lemma GoGopherChunks()
    ensures ChunkTokens("Go Go gopher", 0, 6) == ["Go", "Go", "gopher"]
    ensures ChunkTokens("Go Go gopher", 6, 12) == ["gopher"]
  {
    var s := "Go Go gopher";
    GoGopherReads();
    assert ChunkTokens(s, 12, 6) == [];
    assert ChunkTokens(s, 12, 12) == [];
    assert ChunkTokens(s, 5, 6) == ["gopher"];
    assert ChunkTokens(s, 2, 6) == ["Go", "gopher"];
  }

  lemma GoGopherCounts()
    ensures MatchCount(["Go", "Go", "gopher"], "go") == 2
    ensures MatchCount(["gopher"], "go") == 0
  {
    MatchesNulFree("Go", "go");
    MatchesNulFree("gopher", "go");
    assert FoldCase("Go") == "go";
    MatchCountCons("gopher", [], "go");
    MatchCountCons("Go", ["gopher"], "go");
    MatchCountCons("Go", ["Go", "gopher"], "go");
  }

  /** "Go Go gopher" with target "go": 2 in a single pass, and 2 with two
      threads, whose chunks [0, 6) and [6, 12) both read "gopher". */
  lemma GoGopherExample()
    ensures SingleCount("Go Go gopher", "go") == 2
    ensures MultiCount("Go Go gopher", "go", 2, [true, true]) == 2
  {
    var s := "Go Go gopher";
    PlanOfTwo(12);
    TwoChunkTotal(s, "go", Plan(12, 2));
    assert Plan(12, 2)[0] == Chunk(0, 6);
    assert Plan(12, 2)[1] == Chunk(6, 12);
    assert MultiCount(s, "go", 2, [true, true])
        == MatchCount(ChunkTokens(s, 0, 6), "go") + MatchCount(ChunkTokens(s, 6, 12), "go");
    GoGopherTokens();
    GoGopherChunks();
    GoGopherCounts();
  }

  lemma SpaceGoReads()
    ensures ReadToken("a go", 0) == Token("a", 1)
    ensures ReadToken("a go", 1) == Token("go", 4)
    ensures ReadToken("a go", 2) == Token("go", 4)
  {
  }

  lemma SpaceGoScans()
    ensures Tokens("a go", 0) == ["a", "go"]
    ensures ChunkTokens("a go", 0, 2) == ["a", "go"]
    ensures ChunkTokens("a go", 2, 4) == ["go"]
  {
    var s := "a go";
    SpaceGoReads();
    NoTokensAtEnd(s);
    assert Tokens(s, 1) == ["go"];
    assert ChunkTokens(s, 4, 2) == [];
    assert ChunkTokens(s, 4, 4) == [];
    assert ChunkTokens(s, 1, 2) == ["go"];
  }

  lemma SpaceGoCounts()
    ensures MatchCount(["a", "go"], "go") == 1
    ensures MatchCount(["go"], "go") == 1
  {
    MatchesNulFree("a", "go");
    MatchesNulFree("go", "go");
    assert FoldCase("go") == "go";
    MatchCountCons("go", [], "go");
    MatchCountCons("a", ["go"], "go");
  }

  /** "a go" with target "go" and two threads: the boundary at 2 lies
      between the space and "go", the first chunk's cursor is at 1 after
      "a", so it also reads "go", and the file's total is 2 where the single
      pass counts 1. A boundary that lies in whitespace, straddling no
      token, still double-counts. */
  lemma BoundaryInWhitespaceExample()
    ensures SingleCount("a go", "go") == 1
    ensures MultiCount("a go", "go", 2, [true, true]) == 2
  {
    var s := "a go";
    PlanOfTwo(4);
    TwoChunkTotal(s, "go", Plan(4, 2));
    assert Plan(4, 2)[0] == Chunk(0, 2);
    assert Plan(4, 2)[1] == Chunk(2, 4);
    assert MultiCount(s, "go", 2, [true, true])
        == MatchCount(ChunkTokens(s, 0, 2), "go") + MatchCount(ChunkTokens(s, 2, 4), "go");
    SpaceGoScans();
    SpaceGoCounts();
  }

  lemma TailReads()
    ensures ReadToken("abc d", 0) == Token("abc", 3)
    ensures ReadToken("abc d", 2) == Token("c", 3)
    ensures ReadToken("abc d", 3) == Token("d", 5)
  {
  }

  lemma TailScans()
    ensures Tokens("abc d", 0) == ["abc", "d"]
    ensures ChunkTokens("abc d", 0, 2) == ["abc"]
    ensures ChunkTokens("abc d", 2, 5) == ["c", "d"]
  {
    var s := "abc d";
    TailReads();
    NoTokensAtEnd(s);
    assert Tokens(s, 3) == ["d"];
    assert ChunkTokens(s, 3, 2) == [];
    assert ChunkTokens(s, 5, 5) == [];
    assert ChunkTokens(s, 3, 5) == ["d"];
  }

  lemma TailCounts()
    ensures MatchCount(["abc", "d"], "c") == 0
    ensures MatchCount(["abc"], "c") == 0
    ensures MatchCount(["c", "d"], "c") == 1
  {
    MatchesNulFree("abc", "c");
    MatchesNulFree("c", "c");
    MatchesNulFree("d", "c");
    assert FoldCase("c") == "c";
    assert FoldCase("d")[0] == 'd';
    MatchCountCons("d", [], "c");
    MatchCountCons("abc", [], "c");
    MatchCountCons("abc", ["d"], "c");
    MatchCountCons("c", ["d"], "c");
  }

  /** "abc d" with target "c" and two threads: the second chunk starts at
      2, inside "abc", and reads its tail "c", which matches; the single
      pass counts 0, the two threads 1. */
  lemma MidTokenTailExample()
    ensures SingleCount("abc d", "c") == 0
    ensures MultiCount("abc d", "c", 2, [true, true]) == 1
  {
    var s := "abc d";
    PlanOfTwo(5);
    TwoChunkTotal(s, "c", Plan(5, 2));
    assert Plan(5, 2)[0] == Chunk(0, 2);
    assert Plan(5, 2)[1] == Chunk(2, 5);
    assert MultiCount(s, "c", 2, [true, true])
        == MatchCount(ChunkTokens(s, 0, 2), "c") + MatchCount(ChunkTokens(s, 2, 5), "c");
    TailScans();
    TailCounts();
  }

  lemma StopReads()
    ensures ReadToken("stop", 0) == Token("stop", 4)
  {
  }

  /** "stop" holds one token, which does not match "go". */
  lemma StopHasNoGo()
    ensures SingleCount("stop", "go") == 0
  {
    var s := "stop";
    StopReads();
    NoTokensAtEnd(s);
    assert Tokens(s, 0) == ["stop"];
    MatchesNulFree("stop", "go");
    MatchCountCons("stop", [], "go");
  }

  /** Two files, "a.txt" holding "Go Go gopher" and "b.txt" without the
      target, searched for "Go" in single-threaded mode: the results come
      back as [("a.txt", 2), ("b.txt", 0)], in input order. */
  method TwoFilesInInputOrder() returns (r: Result<seq<SharedData>, RunError>)
    ensures r == Success([SharedData(2, "a.txt"), SharedData(0, "b.txt")])
  {
    var a := FileInput("a.txt", Some("Go Go gopher"), []);
    var b := FileInput("b.txt", Some("stop"), []);
    ShortFileFits(a.content.value);
    ShortFileFits(b.content.value);
    r := Run("Go", SingleThreaded, [a, b]);
    ResultsOfTwo(r.value, [a, b], FoldCase("Go"));
    TwoFilesCounts();
  }

  lemma ResultsOfTwo(rs: seq<SharedData>, files: seq<FileInput>, target: string)
    requires |rs| == |files| == 2
    requires forall i :: 0 <= i < |rs| ==>
      rs[i] == SharedData(FileCount(files[i], target, SingleThreaded), Truncate(files[i].name))
    ensures rs == [SharedData(FileCount(files[0], target, SingleThreaded), Truncate(files[0].name)),
                   SharedData(FileCount(files[1], target, SingleThreaded), Truncate(files[1].name))]
  {
  }

  lemma TwoFilesCounts()
    ensures FoldCase("Go") == "go"
    ensures FileCount(FileInput("a.txt", Some("Go Go gopher"), []), "go", SingleThreaded) == 2
    ensures FileCount(FileInput("b.txt", Some("stop"), []), "go", SingleThreaded) == 0
    ensures Truncate("a.txt") == "a.txt" && Truncate("b.txt") == "b.txt"
  {
    assert FoldCase("Go") == "go";
    FirstFileCount();
    SecondFileCount();
  }

  lemma FirstFileCount()
    ensures FileCount(FileInput("a.txt", Some("Go Go gopher"), []), "go", SingleThreaded) == 2
  {
    GoGopherExample();
  }

  lemma SecondFileCount()
    ensures FileCount(FileInput("b.txt", Some("stop"), []), "go", SingleThreaded) == 0
  {
    StopHasNoGo();
  }
}
