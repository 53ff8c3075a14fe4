/** The tokenizer and matcher: `fscanf(file, "%s", word)` over a file held
    as an immutable character sequence with a cursor, `to_lower` of the
    token, `strcmp` against the lowered target, and the two scan loops
    (the whole file, and one chunk of it). */
module Scanner {
  import opened CType
  import opened Wrappers

  /** Size of the `word` buffer that `fscanf` stores each token into. */
  const MaxWordLength := 1000

  /** The cursor after skipping the whitespace at and after `pos`. */
  function SkipSpace(s: string, pos: nat): (p: nat)
    requires pos <= |s|
    ensures pos <= p <= |s|
    ensures forall k :: pos <= k < p ==> IsSpace(s[k])
    ensures p < |s| ==> !IsSpace(s[p])
    decreases |s| - pos
  {
    if pos == |s| || !IsSpace(s[pos]) then pos else SkipSpace(s, pos + 1)
  }

  /** The end of the run of non-whitespace starting at `pos`. */
  function TokenEnd(s: string, pos: nat): (e: nat)
    requires pos <= |s|
    ensures pos <= e <= |s|
    ensures forall k :: pos <= k < e ==> !IsSpace(s[k])
    ensures e < |s| ==> IsSpace(s[e])
    decreases |s| - pos
  {
    if pos == |s| || IsSpace(s[pos]) then pos else TokenEnd(s, pos + 1)
  }

  /** Outcome of one `fscanf(file, "%s", word)`: end of input (the call
      does not return 1), or a token and the cursor just past it. */
  datatype Read = Eof | Token(word: string, next: nat)

  predicate IsWord(w: string) {
    |w| > 0 && forall k :: 0 <= k < |w| ==> !IsSpace(w[k])
  }

  /** `fscanf(file, "%s", word)` with the cursor at `pos`; the cursor
      only moves forward. */
  function ReadToken(s: string, pos: nat): (r: Read)
    ensures r.Token? ==> pos < r.next <= |s|
  {
    if pos >= |s| then Eof
    else
      var start := SkipSpace(s, pos);
      if start == |s| then Eof
      else
        var e := TokenEnd(s, start);
        Token(s[start..e], e)
  }

  /** What one read does: input holding only whitespace from the cursor on
      gives no token; otherwise the whitespace is skipped and the token is
      the maximal run of non-whitespace after it, and the whitespace that
      ends the token is left unread. */
  lemma ReadTokenMeaning(s: string, pos: nat)
    ensures ReadToken(s, pos).Eof? <==> forall k :: pos <= k < |s| ==> IsSpace(s[k])
    ensures ReadToken(s, pos).Token? ==>
      var r := ReadToken(s, pos);
      && IsWord(r.word)
      && |r.word| <= r.next - pos
      && r.word == s[r.next - |r.word|..r.next]
      && (forall k :: pos <= k < r.next - |r.word| ==> IsSpace(s[k]))
      && (forall k :: r.next - |r.word| <= k < r.next ==> !IsSpace(s[k]))
      && (r.next < |s| ==> IsSpace(s[r.next]))
  {
  }

  /** `ReadToken`'s contract determines it: whitespace from `pos` up to a
      word that runs from `q` to whitespace or the end of input at `e` is
      read as that word, with the cursor left at `e`. */
  lemma ReadTokenUnique(s: string, pos: nat, q: nat, e: nat)
    requires pos <= q < e <= |s|
    requires forall k :: pos <= k < q ==> IsSpace(s[k])
    requires forall k :: q <= k < e ==> !IsSpace(s[k])
    requires e < |s| ==> IsSpace(s[e])
    ensures ReadToken(s, pos) == Token(s[q..e], e)
  {
    var p := SkipSpace(s, pos);
    assert !IsSpace(s[q]);
    assert p < |s| ==> !IsSpace(s[p]);
    var t := TokenEnd(s, q);
    assert t < |s| ==> IsSpace(s[t]);
  }

  /** The tokens read one after another from `pos` to the end of input. */
  function Tokens(s: string, pos: nat): (r: seq<string>)
    ensures pos <= |s| ==> |r| <= |s| - pos
    ensures pos >= |s| ==> r == []
    decreases |s| - pos
  {
    match ReadToken(s, pos)
    case Eof => []
    case Token(w, next) => [w] + Tokens(s, next)
  }

  /** Every token a scan reads is a non-empty run of non-space characters. */
  lemma {:induction false} TokensAreWords(s: string, pos: nat)
    ensures forall i :: 0 <= i < |Tokens(s, pos)| ==> IsWord(Tokens(s, pos)[i])
    decreases |s| - pos
  {
    ReadTokenMeaning(s, pos);
    match ReadToken(s, pos)
    case Eof =>
    case Token(w, next) =>
      TokensAreWords(s, next);
  }

  /** The tokens a chunk scan reads: a read is started only while the
      cursor is still before `end`, so the last token read may begin at or
      after `end`. Each read moves the cursor forward, so a chunk from
      `pos` reads at most `end - pos` tokens. */
  function ChunkTokens(s: string, pos: nat, end: nat): (r: seq<string>)
    ensures pos < end ==> |r| <= end - pos
    decreases |s| - pos
  {
    if pos >= end then []
    else match ReadToken(s, pos)
      case Eof => []
      case Token(w, next) => [w] + ChunkTokens(s, next, end)
  }

  /** `to_lower(word)` then `strcmp(word, target) == 0`, for a target that
      is already lowered. */
  predicate Matches(w: string, target: string)
    ensures Matches(w, target) ==> |target| <= |w| && NulFree(target)
    ensures Matches(w, target) ==> forall k :: 0 <= k < |target| ==> !IsUpper(target[k])
  {
    FoldCase(CStr(w)) == target
  }

  /** How many of the tokens match the target. */
  function MatchCount(ts: seq<string>, target: string): (r: nat)
    ensures r <= |ts|
    ensures r == 0 <==> forall i :: 0 <= i < |ts| ==> !Matches(ts[i], target)
    ensures r == |ts| <==> forall i :: 0 <= i < |ts| ==> Matches(ts[i], target)
  {
    if ts == [] then 0
    else (if Matches(ts[0], target) then 1 else 0) + MatchCount(ts[1..], target)
  }

  /** Every token of the file fits the `word` buffer with its NUL. */
  predicate ShortTokens(s: string) {
    forall i :: 0 <= i <= |s| ==> TokenEnd(s, i) - i < MaxWordLength
  }

  /** A file shorter than the buffer cannot overflow it. */
  lemma ShortFileFits(s: string)
    requires |s| < MaxWordLength
    ensures ShortTokens(s)
  {
  }

  lemma ReadTokenFits(s: string, pos: nat)
    requires ShortTokens(s) && ReadToken(s, pos).Token?
    ensures |ReadToken(s, pos).word| < MaxWordLength
  {
    var start := SkipSpace(s, pos);
    assert TokenEnd(s, start) - start < MaxWordLength;
  }

  /** `fscanf` storing token `w` into the `word` buffer, NUL-terminated. */
  method StoreToken(word: array<char>, w: string)
    requires |w| < word.Length
    modifies word
    ensures word[..|w| + 1] == w + ['\0']
    ensures word[|w| + 1..] == old(word[|w| + 1..])
  {
    forall k | 0 <= k < |w| {
      word[k] := w[k];
    }
    word[|w|] := '\0';
  }

  /** Reads token `w` into `word`, lowers it in place and compares it with
      the target, as the bodies of both scan loops do; the buffer is left
      holding the lowered token, its NUL and the old bytes after it. */
  method MatchToken(word: array<char>, w: string, target: string) returns (eq: bool)
    requires |w| < word.Length
    modifies word
    ensures eq == Matches(w, target)
    ensures word[..] == LowerCString(w + ['\0'] + old(word[|w| + 1..]))
  {
    StoreToken(word, w);
    assert word[|w|] == '\0';
    ghost var stored := word[..];
    assert stored == w + ['\0'] + old(word[|w| + 1..]);
    ToLower(word);
    CStrOfLowered(stored);
    CStrOfTerminated(stored, w);
    eq := CStr(word[..]) == target;
  }

  /** `count_words_single_thread`: -1 when the file cannot be opened,
      otherwise the number of tokens from start to end that match. */
  method CountWordsSingleThread(file: Option<string>, target: string) returns (count: int)
    requires file.Some? ==> ShortTokens(file.value)
    ensures count == -1 <==> file.None?
    ensures file.Some? ==> count == MatchCount(Tokens(file.value, 0), target)
  {
    if file.None? {
      return -1;
    }
    var s := file.value;
    var word := new char[MaxWordLength];
    count := 0;
    var pos := 0;
    while ReadToken(s, pos).Token?
      invariant pos <= |s|
      invariant count + MatchCount(Tokens(s, pos), target) == MatchCount(Tokens(s, 0), target)
      decreases |s| - pos
    {
      var r := ReadToken(s, pos);
      ReadTokenFits(s, pos);
      var eq := MatchToken(word, r.word, target);
      if eq {
        count := count + 1;
      }
      pos := r.next;
    }
  }

  /** The scan loop of `count_words_in_chunk`: the count it adds to the
      file's total, 0 when its own open of the file fails. */
  method CountWordsInChunk(file: Option<string>, target: string, start: nat, end: nat) returns (count: nat)
    requires file.Some? ==> ShortTokens(file.value)
    ensures file.None? ==> count == 0
    ensures file.Some? ==> count == MatchCount(ChunkTokens(file.value, start, end), target)
    ensures start >= end ==> count == 0
  {
    if file.None? {
      return 0;
    }
    var s := file.value;
    var word := new char[MaxWordLength];
    count := 0;
    var pos := start;
    while pos < end && ReadToken(s, pos).Token?
      invariant count + MatchCount(ChunkTokens(s, pos, end), target)
             == MatchCount(ChunkTokens(s, start, end), target)
      decreases |s| - pos
    {
      var r := ReadToken(s, pos);
      ReadTokenFits(s, pos);
      var eq := MatchToken(word, r.word, target);
      if eq {
        count := count + 1;
      }
      pos := r.next;
    }
  }

  lemma NoTokensAtEnd(s: string)
    ensures Tokens(s, |s|) == []
  {
    assert ReadToken(s, |s|) == Eof;
  }

  /** A chunk that reaches the end of the file reads what a scan of the
      whole file from the same cursor reads. */
  lemma {:induction false} ChunkToEndIsWholeScan(s: string, pos: nat, end: nat)
    requires end >= |s|
    ensures ChunkTokens(s, pos, end) == Tokens(s, pos)
    decreases |s| - pos
  {
    match ReadToken(s, pos)
    case Eof =>
    case Token(w, next) =>
      ChunkToEndIsWholeScan(s, next, end);
  }

  /** A chunk reads a prefix of what a scan from its start to the end of
      the file reads. */
  lemma {:induction false} ChunkIsPrefix(s: string, pos: nat, end: nat)
    ensures |ChunkTokens(s, pos, end)| <= |Tokens(s, pos)|
    ensures ChunkTokens(s, pos, end) == Tokens(s, pos)[..|ChunkTokens(s, pos, end)|]
    decreases |s| - pos
  {
    if pos < end {
      match ReadToken(s, pos)
      case Eof =>
      case Token(w, next) =>
        ChunkIsPrefix(s, next, end);
    }
  }

  /** A boundary that a chunk scan cannot overrun: the start or end of the
      file, or a position right after the last character of a token. */
  predicate CleanCut(s: string, b: nat) {
    b == 0 || b == |s| || (0 < b < |s| && !IsSpace(s[b - 1]) && IsSpace(s[b]))
  }

  /** Cutting a scan at a clean boundary: what the chunk up to `b` reads,
      followed by what a scan from `b` reads, is what a scan from `pos`
      reads. */
  lemma {:induction false} SplitAtCleanCut(s: string, pos: nat, b: nat)
    requires pos <= b <= |s| && CleanCut(s, b)
    ensures Tokens(s, pos) == ChunkTokens(s, pos, b) + Tokens(s, b)
    decreases |s| - pos
  {
    if pos == b {
    } else if b == |s| {
      ChunkToEndIsWholeScan(s, pos, b);
    } else {
      ReadBeforeCleanCut(s, pos, b);
      var next := ReadToken(s, pos).next;
      SplitAtCleanCut(s, next, b);
    }
  }

  /** A read from before a clean cut finds a token, the one that ends at
      the cut at the latest. */
  lemma ReadBeforeCleanCut(s: string, pos: nat, b: nat)
    requires pos < b < |s| && !IsSpace(s[b - 1]) && IsSpace(s[b])
    ensures ReadToken(s, pos).Token? && ReadToken(s, pos).next <= b
  {
    var p := SkipSpace(s, pos);
    var e := TokenEnd(s, p);
  }

  /** Counting over two runs of tokens adds up. */
  lemma {:induction false} MatchCountConcat(a: seq<string>, b: seq<string>, target: string)
    ensures MatchCount(a + b, target) == MatchCount(a, target) + MatchCount(b, target)
  {
    if a == [] {
      assert a + b == b;
    } else {
      assert (a + b)[1..] == a[1..] + b;
      MatchCountConcat(a[1..], b, target);
    }
  }

  /** A target holding an upper-case letter matches no token: tokens are
      lowered before the comparison, which is why the target is lowered
      first as well. */
  lemma UpperTargetNeverMatches(ts: seq<string>, target: string, k: nat)
    requires k < |target| && IsUpper(target[k])
    ensures MatchCount(ts, target) == 0
  {
    forall i | 0 <= i < |ts|
      ensures !Matches(ts[i], target)
    {
      var f := FoldCase(CStr(ts[i]));
      if |f| == |target| {
        assert f[k] != target[k];
      }
    }
  }

  function FoldAll(ts: seq<string>): (r: seq<string>)
  {
    seq(|ts|, i requires 0 <= i < |ts| => FoldCase(ts[i]))
  }

  lemma {:induction false} SkipSpaceFolded(s: string, pos: nat)
    requires pos <= |s|
    ensures SkipSpace(FoldCase(s), pos) == SkipSpace(s, pos)
    decreases |s| - pos
  {
    if pos < |s| {
      SkipSpaceFolded(s, pos + 1);
    }
  }

  lemma {:induction false} TokenEndFolded(s: string, pos: nat)
    requires pos <= |s|
    ensures TokenEnd(FoldCase(s), pos) == TokenEnd(s, pos)
    decreases |s| - pos
  {
    if pos < |s| {
      TokenEndFolded(s, pos + 1);
    }
  }

  function FoldRead(r: Read): Read
  {
    match r
    case Eof => Eof
    case Token(w, next) => Token(FoldCase(w), next)
  }

  /** Reading from a case-folded file reads the folded token and leaves
      the cursor where reading the original leaves it. */
  lemma ReadTokenFolded(s: string, pos: nat)
    ensures ReadToken(FoldCase(s), pos) == FoldRead(ReadToken(s, pos))
  {
    if pos < |s| {
      SkipSpaceFolded(s, pos);
      var start := SkipSpace(s, pos);
      if start < |s| {
        TokenEndFolded(s, start);
        var e := TokenEnd(s, start);
        assert FoldCase(s)[start..e] == FoldCase(s[start..e]);
      }
    }
  }

  /** Case folding a file folds its tokens and moves no boundary. */
  lemma {:induction false} TokensOfFolded(s: string, pos: nat)
    ensures Tokens(FoldCase(s), pos) == FoldAll(Tokens(s, pos))
    decreases |s| - pos
  {
    ReadTokenFolded(s, pos);
    var r := ReadToken(s, pos);
    if r.Token? {
      TokensOfFolded(s, r.next);
      assert Tokens(s, pos) == [r.word] + Tokens(s, r.next);
      assert Tokens(FoldCase(s), pos) == [FoldCase(r.word)] + Tokens(FoldCase(s), r.next);
      FoldAllCons(r.word, Tokens(s, r.next));
    }
  }

  lemma FoldAllCons(w: string, ts: seq<string>)
    ensures FoldAll([w] + ts) == [FoldCase(w)] + FoldAll(ts)
  {
  }

  /** Whether a token matches does not depend on the case of its letters. */
  lemma MatchesFolded(w: string, target: string)
    ensures Matches(FoldCase(w), target) == Matches(w, target)
  {
    CStrOfFolded(w);
    assert FoldCase(FoldCase(CStr(w))) == FoldCase(CStr(w));
  }

  lemma {:induction false} MatchCountFolded(ts: seq<string>, target: string)
    ensures MatchCount(FoldAll(ts), target) == MatchCount(ts, target)
  {
    if ts != [] {
      MatchesFolded(ts[0], target);
      assert FoldAll(ts)[1..] == FoldAll(ts[1..]);
      MatchCountFolded(ts[1..], target);
    }
  }

  /** Case insensitivity: a file and its lower-cased copy give the same
      count for every target. */
  lemma CountIgnoresFileCase(s: string, target: string)
    ensures MatchCount(Tokens(FoldCase(s), 0), target) == MatchCount(Tokens(s, 0), target)
  {
    TokensOfFolded(s, 0);
    MatchCountFolded(Tokens(s, 0), target);
  }
}
