# Word counting engine of `fileManager.cpp`

`fileManager.cpp` counts how often a target word occurs in each of up to
ten files. `main` forks one worker per file. A worker lowers the target
and counts in one of two ways:

- **Single-threaded.** `count_words_single_thread` makes one `fscanf("%s")`
  pass over the whole file.
- **Multi-threaded.** `process_file` splits the file's bytes into
  `num_threads` chunks. One thread per chunk runs `count_words_in_chunk`.
  The threads' local counts are added into the file's total under a mutex.

Each worker stores its count and its file name, cut to 255 characters, in
its own slot of a shared result region. `main` then reads the slots back in
input order.

The model keeps the sequential logic and drops the processes, threads and
system calls around it:

- A file is an immutable `string` (one `char` per byte) read through a cursor.
- Whether an `fopen` succeeds is an input: `Option<string>` for the file,
  and one `bool` per thread for each thread's own open.
- The threads of one file run one after another, and their counts are
  summed. A separate lemma shows that the order of the additions does not
  matter.
- The workers of `main` run one after another. Each writes only its own
  slot of a `ResultStore` object.

Modules, one per source concern:

- `CType`: `isspace` and `tolower` in the "C" locale, and C strings, whose
  end is the first NUL. It also holds `to_lower` as an in-place loop over
  an array.
- `Scanner`: `fscanf(file, "%s", word)` as the function `ReadToken` on
  (file, cursor). `Tokens` and `ChunkTokens` are the token sequences that
  the two scan loops read. `MatchCount` counts the tokens whose lowered C
  string equals the target. The two scan loops themselves are methods that
  store each token in a 1000-character buffer, lower it in place and
  compare it.
- `Chunks`: the chunk planner. `Plan` says what the planner computes.
  `PlanChunks` is the loop that fills the `chunks` array.
- `FileCounter`: `process_file`. It covers the sum of the chunk counts,
  independence from the order of additions, and agreement between the two
  modes.
- `Coordinator`: `main` from the file-count check to the read-back. It
  contains the result store (a class over an array of slots).
- `Examples`: worked files that fix the chunk-boundary policy, and an
  end-to-end run over two files.

**Boundary policy.** The chunk loop tests `ftell(file) < end` *before*
`fscanf` skips whitespace. The model keeps this policy and has three
consequences:

- A chunk whose cursor is still before `end` reads the next token, even
  when that token starts at or after `end`.
- A chunk that starts inside a token reads that token's tail as a token.
- Keeping tokens from straddling a boundary is therefore not enough for
  the two modes to agree. In `"a go"` with two threads, the boundary falls
  between the space and `go`. `go` is counted by both chunks, giving 2
  against the single pass's 1 (`Examples.BoundaryInWhitespaceExample`).

The modes are proved to agree when every boundary is a *clean cut*: 0,
the file size, or the position right after the last byte of a token
(`CleanCut`). With one thread
they always agree.

## Model

| member | source | states |
|---|---|---|
| CType.IsSpace | fileManager.cpp:86 | `%s` treats exactly the six "C"-locale `isspace` bytes as whitespace: space, tab, newline, vertical tab, form feed and carriage return (codes 32 and 9 to 13). |
| CType.Lower | fileManager.cpp:38 | `tolower` changes exactly the 26 capitals. A capital becomes its lower-case letter. Every other byte is unchanged. The result is never a capital. It is a lower-case letter exactly when the input was a letter. Whitespace and NUL are preserved. |
| CType.CStr | fileManager.cpp:37 | The C string in a buffer is the prefix before the first NUL. It has no NUL. Where it is shorter than the buffer, a NUL follows it. |
| CType.LowerCString | fileManager.cpp:36-40 | What `to_lower` leaves: the same length, every byte before the first NUL replaced by its `tolower`, and the NUL and everything after it untouched. |
| CType.ToLower | fileManager.cpp:36-40 | The in-place loop over a NUL-terminated array leaves exactly `LowerCString` of the old contents. |
| CType.LowerCStringIdempotent | fileManager.cpp:36-40 | Applying `to_lower` twice gives the same result as applying it once. |
| CType.CStrOfLowered | fileManager.cpp:36-40 | The C string left by `to_lower` is the case-folded C string it started with. |
| Scanner.SkipSpace | fileManager.cpp:86 | `%s` skips whitespace. The cursor stops on the first non-space byte, or at the end of the input. |
| Scanner.TokenEnd | fileManager.cpp:86 | A token is the maximal run of non-space bytes. It ends at whitespace or at the end of the input. |
| Scanner.ReadToken | fileManager.cpp:86 | A successful read moves the cursor strictly forward and never beyond the end of the file. |
| Scanner.ReadTokenMeaning | fileManager.cpp:86 | A read fails exactly when only whitespace remains. Otherwise it returns the non-empty maximal non-space run after the skipped whitespace. The cursor is left on the whitespace that ends the token, which is not consumed. |
| Scanner.ReadTokenUnique | fileManager.cpp:86 | Whitespace followed by a maximal word determines the read: it yields that word and leaves the cursor just past it. |
| Scanner.Tokens | fileManager.cpp:86-91 | The tokens the single-pass loop reads, one `fscanf` after another, until a read fails. Each read moves the cursor forward, so a scan from `pos` reads at most as many tokens as there are bytes from `pos` to the end, and none from the end of the file. |
| Scanner.ChunkTokens | fileManager.cpp:59 | The tokens the chunk loop reads. A read starts only while the cursor is before `end`, tested before whitespace is skipped. A chunk from `pos` therefore reads at most `end - pos` tokens. |
| Scanner.Matches | fileManager.cpp:87-88 | A token matches when its C string, lowered, equals the target. A matching target is never longer than the token, has no NUL and has no capital. |
| Scanner.TokensAreWords | fileManager.cpp:86-91 | Every token the single pass reads is a non-empty run of non-space bytes. |
| Scanner.MatchCount | fileManager.cpp:87-90 | The count never exceeds the number of tokens read. It is 0 exactly when no token matches. It equals the number of tokens exactly when all of them match. |
| Scanner.ShortFileFits | fileManager.cpp:15 | A file shorter than `MAX_WORD_LENGTH` cannot overflow the `word` buffer. |
| Scanner.StoreToken | fileManager.cpp:86 | `fscanf` stores the token followed by a NUL in the `word` buffer. The bytes after the NUL are left as they were. |
| Scanner.MatchToken | fileManager.cpp:86-88 | Storing the token, lowering the buffer in place and running `strcmp` yields true exactly when `Matches` holds: the token's C string, case-folded, equals the target. The buffer is left holding `to_lower` of the token, its NUL and the old bytes after them. |
| Scanner.CountWordsSingleThread | fileManager.cpp:76-95 | -1 exactly when the file cannot be opened. Otherwise the number of tokens, from start to end of file, whose lowered form equals the target. |
| Scanner.CountWordsInChunk | fileManager.cpp:43-64 | 0 when the thread's open fails. Otherwise the number of matching tokens among those read while the cursor is before `end` (`ChunkTokens`). 0 for a range with `start >= end`. |
| Scanner.ChunkToEndIsWholeScan | fileManager.cpp:59 | A chunk that reaches the end of the file reads exactly what the single pass reads from the same cursor. |
| Scanner.ChunkIsPrefix | fileManager.cpp:59 | A chunk reads a prefix of what a single pass from its start reads. |
| Scanner.SplitAtCleanCut | fileManager.cpp:59 | At a clean cut `b`, the tokens a chunk reads up to `b`, followed by the tokens a scan from `b` reads, are exactly the tokens a scan from the chunk's start reads. |
| Scanner.MatchCountConcat | fileManager.cpp:62 | Counts over two consecutive runs of tokens add up. |
| Scanner.UpperTargetNeverMatches | fileManager.cpp:60-61 | A target with a capital letter matches no token, because tokens are lowered before `strcmp`. This is why the target is lowered as well. |
| Scanner.CountIgnoresFileCase | fileManager.cpp:87-88 | A file and its case-folded copy give the same count for every target. |
| Chunks.ChunkAt | fileManager.cpp:117-121 | Chunk `i` starts at `i * (file_size / num_threads)`. It ends where chunk `i + 1` starts, except the last chunk, which ends at `file_size`. |
| Chunks.Plan | fileManager.cpp:117-121 | The planner produces exactly `num_threads` chunks. |
| Chunks.PlanTiles | fileManager.cpp:117-121 | Chunk 0 starts at 0 and the last chunk ends at `file_size`. Each chunk ends where the next one starts, and every `start <= end`. |
| Chunks.PlanChunkSizes | fileManager.cpp:117-121 | Every chunk but the last spans `file_size / num_threads` bytes. The last spans that plus `file_size % num_threads`, so it is at least as long. |
| Chunks.TilesOrdered | fileManager.cpp:119-121 | In a tiling, an earlier chunk ends no later than any later chunk starts. |
| Chunks.TilesPartition | fileManager.cpp:117-121 | Every byte of `[0, file_size)` lies in exactly one chunk: the chunks cover the file without overlap. |
| Chunks.PlanChunks | fileManager.cpp:117-121 | The loop fills the `chunks` array with exactly the planned ranges. |
| FileCounter.Sum | fileManager.cpp:68 | The total starts at 0 and adds each local count in turn. |
| FileCounter.MultiCount | fileManager.cpp:114-145 | The value `process_file` returns for an opened file. It is the sum, over the planned chunks, of each chunk's matching-token count, or 0 for a chunk whose open fails. |
| FileCounter.SumOrderIrrelevant | fileManager.cpp:66-69 | Any rearrangement of the chunks' local counts adds up to the same total, so the order in which threads take the mutex does not matter. |
| FileCounter.SumConcat | fileManager.cpp:68 | The total over two groups of additions is the sum of their totals. |
| FileCounter.ProcessFile | fileManager.cpp:98-146 | -1 when the size-probing open fails. Otherwise 0 plus each chunk's local count. A chunk whose own open fails adds 0. |
| FileCounter.FailedOpensOnlyLower | fileManager.cpp:45-49 | With any pattern of failed thread opens, the total is non-negative and at most the total when every open succeeds. |
| FileCounter.TiledCount | fileManager.cpp:59 | Chunks that tile the file and end on clean cuts together count what the single pass counts. |
| FileCounter.ModesAgreeOnCleanCuts | fileManager.cpp:117-121 | When every planned boundary is a clean cut, the multi-threaded total equals the single-threaded count. |
| FileCounter.ModesAgreeOneThread | fileManager.cpp:119-121 | With `num_threads == 1` the two modes give the same count on every file. |
| Examples.GoGopherExample | fileManager.cpp:59 | For `"Go Go gopher"` and target `go`: the single pass counts 2. Two threads, with chunks [0, 6) and [6, 12), count 2 too, although both chunks read `gopher`. |
| Examples.BoundaryInWhitespaceExample | fileManager.cpp:59 | For `"a go"` and target `go`: the single pass counts 1 and two threads count 2. The first chunk's cursor is at 1, before its end 2, so it also reads `go`. |
| Examples.MidTokenTailExample | fileManager.cpp:52 | For `"abc d"` and target `c`, the second chunk starts inside `abc` and reads its tail `c`. The single pass counts 0 and two threads count 1. |
| Examples.StopHasNoGo | fileManager.cpp:86-91 | `"stop"` holds one token, which does not match `go`. |
| Coordinator.Truncate | fileManager.cpp:226 | The stored name is a prefix of the file name of at most 255 characters. It is the whole name when the name is shorter than 256 characters, and exactly 255 characters otherwise. |
| Coordinator.FileCount | fileManager.cpp:218-222 | A worker's count: -1 for a file that cannot be opened. Otherwise the single-pass count in single-threaded mode, and the chunked total with `num_threads` chunks in multi-threaded mode. |
| Coordinator.FileCountSentinel | fileManager.cpp:217-222 | A slot's count is -1 exactly when its file cannot be opened. Every other count is non-negative. |
| Coordinator.ResultStore.constructor | fileManager.cpp:184-197 | The result region is fresh, has one zero-filled slot per file, and no slot has been written yet. |
| Coordinator.ResultStore.Write | fileManager.cpp:225-226 | A worker writes only its own slot, which has not been written before. Every other slot is unchanged. |
| Coordinator.ResultStore.ReadAll | fileManager.cpp:251-255 | The read-back returns every slot, in index order. |
| Coordinator.LowerTarget | fileManager.cpp:215 | `to_lower(target_word)` on the NUL-terminated argument yields the case-folded target. |
| Coordinator.Run | fileManager.cpp:155-255 | No file arguments is a usage error, and more than 10 files is rejected before any slot exists. Otherwise slot `i` holds file `i`'s count, from the selected mode with the lowered target, and its truncated name. The result has one slot per file, in input order. |
| Examples.TwoFilesInInputOrder | fileManager.cpp:251-255 | Files `a.txt` (`"Go Go gopher"`) and `b.txt` (`"stop"`), searched for `Go` single-threaded, come back as `[(2, a.txt), (0, b.txt)]`. |

## Left out

- Threads, `pthread_create`/`pthread_join` and the mutex: the chunks of a file are scanned one after another and their counts summed. The order of the additions is covered by `SumOrderIrrelevant`; interleavings are not modelled.
- `process_file` returning -1 when `pthread_create` fails: the model assumes every thread is created.
- `fork`, `waitpid`, `exit`, and the POSIX shared memory calls (`shm_open`, `ftruncate`, `mmap`, `munmap`, `shm_unlink`): workers run one after another on a plain array of slots. Failures of `fork`, `shm_open` and `ftruncate` make `main` return 1. A failed `mmap` is not checked, and the results of `waitpid`, `munmap` and `shm_unlink` are ignored. None of these failures is modelled.
- `Coordinator.ResultStore.constructor`: the region starts zero-filled. Stale contents of a reused shared-memory object, and `strncpy` leaving byte 255 as it was, are not modelled.
- `fopen`, `fseek`, `ftell`, `fscanf` and `fclose` are replaced by an in-memory file and a cursor. Open failures are inputs. A file's size is the length of its contents.
- `Scanner.CountWordsSingleThread`: requires every token to be shorter than `MAX_WORD_LENGTH` (`ShortTokens`). The source overflows the 1000-byte `word` buffer on a longer token, and that undefined behaviour is not modelled. `CountWordsInChunk`, `ProcessFile` and `Run` carry the same precondition.
- `FileCounter.ProcessFile`: requires `num_threads >= 1`. With 0 the source divides by zero at line 117, which is undefined behaviour. With a negative value the `malloc` calls get a wrapped size and return NULL. Neither loop then runs, so `process_file` returns 0 for a file it can open. That defined result is not modelled. `Coordinator.Run` requires the same in multi-threaded mode.
- `Coordinator.Run`: `num_threads` and the mode flag are given as values. Parsing them with `atoi`, and every `printf`/`perror`/`fprintf`, are left out.
- Counts are unbounded integers. Overflow of the 32-bit `int` counters and of `i * chunk_size` is not modelled.
- Bytes are modelled as `char`. Signed `char` values passed to `tolower`, and locales other than "C", are not modelled.
- `clock_gettime`, `getrusage` and `print_performance_metrics`: timing and resource reporting, with floating point and OS calls.
- The `%%writefile` line at the top of the file is a notebook directive, not C.
