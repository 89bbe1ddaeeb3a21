# rust-scudo adapter core, modelled in Dafny

rust-scudo connects Rust programs to the Scudo hardened allocator. This
project models the three parts of it that contain logic, and proves
properties of each.

- **The `set_scudo_options` attribute macro.** It is attached to `main` and
  reads a comma separated list of `key = value` options. A value is a
  literal, a `-` followed by a literal, or `true`/`false`. The macro builds
  the options string `key=value:` per entry, followed by one NUL. It then
  emits the unchanged item together with the `__scudo_default_options`
  accessor that returns that string.
  - `option_parser.dfy` covers the token grammar, with a printer for it.
  - `option_string.dfy` covers the string format, with a reference decoder.
  - `options_macro.dfy` covers the expansion.
- **`GlobalScudoAllocator`**, the host allocator adapter (`global_allocator.dfy`).
  - `alloc` calls `posix_memalign` with alignment `max(size_of pointer, layout.align())`. It returns the engine's pointer on status 0 and null otherwise.
  - `dealloc` calls `free` and ignores the layout.
  - `print_stats` forwards to the engine.
  - The test helper `count_allocations_by_size` and the allocate/free count test are also modelled.
  - Two copies of the adapter exist, `scudo/src/lib.rs` and `src/global_allocator.rs`, with identical logic. One module models both.
- **The chunk enumeration bridge `map_chunks`** (`ffi.dfy`). It takes the engine's global lock, iterates over an address window, and releases the lock. Each chunk the engine reports is forwarded to a host closure through the `callback` trampoline. `test_map_allocator` is modelled too.

The engine itself is outside the repository. `engine.dfy` models it as an
abstract collaborator with three parts:

- a map from live addresses to requested sizes;
- a lock flag (`enabled`);
- a log of every call made into the engine and every chunk it reports.

The engine's free choices become parameters, and predicates say which
choices are allowed:

- For an allocation, `Grant` says whether it succeeds and at which address. `MayAnswer` allows a fresh, aligned, non-null address, or a nonzero status.
- For an iteration, `order` is the order in which chunks are reported. `Enumerates` allows every chunk of the window, each exactly once.

The target is a 64-bit one:

- the pointer size is 8;
- `usize::MAX` is 2^64 - 1;
- `isize::MAX` is 2^63 - 1.

Three points about the code that the model follows closely:

- **Literal values are not inspected.** A literal value's text is not
  checked (`scudo-proc-macros/src/lib.rs:58`), so `foo = 3.14x`, which the
  Rust lexer reads as one literal with suffix `x`, is accepted.
  `OptionParser.LiteralAcceptedVerbatim` states this.
- **Keys are identifiers as `syn` 1 reads them.** The list parser is called
  with the one-argument `parse_terminated` of `syn` 1
  (`scudo-proc-macros/src/lib.rs:76`), and the key is parsed as a `syn` 1
  identifier (`scudo-proc-macros/src/lib.rs:39`). That parser refuses `_`
  and the keywords of the 2015 edition, so `type = 1` or `true = 1` is a
  compile error, while `dyn`, `try`, `async` and `await` are accepted as
  keys. `OptionParser.KeywordsOfLength` lists the refused words.
- **Lock comments.** The comments in `src/ffi.rs:19-22` say the opposite of
  what `enable` and `disable` do. The model follows how `map_chunks` uses
  them: `disable` takes the lock before the iteration, and `enable` releases
  it afterwards.

## Model

| member | source | states |
|---|---|---|
| OptionParser.ParseValue | scudo-proc-macros/src/lib.rs:42-67 | An accepted value consumes at least one token, and the rest of the input is returned untouched. Every rejection is "Expect a valid value like '3.14' or 'true'", except input that ends right after `-`, which fails on reading the missing token. |
| OptionParser.ParseEntry | scudo-proc-macros/src/lib.rs:37-70 | An accepted entry consumed at least three tokens: an identifier that becomes the key, then `=`, then the value. The key is never one of the words the `syn` 1 identifier parser refuses, and such a word in key position is refused as a missing key. |
| OptionParser.ParseOptionsList | scudo-proc-macros/src/lib.rs:73-78 | The list is empty exactly when the attribute has no tokens. |
| OptionParser.ParseValueExact | scudo-proc-macros/src/lib.rs:45-67 | A value is read from the input if and only if the input starts with exactly that value's tokens: a literal, `-` and a literal, or `true`/`false`. |
| OptionParser.ParseEntryExact | scudo-proc-macros/src/lib.rs:38-69 | An entry is read if and only if the input starts with its key identifier, `=`, and its value's tokens, and the key is not a keyword. |
| OptionParser.ParseOptionsListExact | scudo-proc-macros/src/lib.rs:73-78 | The whole grammar, both directions. A token sequence is accepted as a list of entries if and only if it spells those entries separated by commas, optionally followed by one trailing comma when the list is not empty, and no key is a keyword. |
| OptionParser.ParsedIsSpelled | scudo-proc-macros/src/lib.rs:73-78 | Soundness: whatever the parser accepts is the comma separated spelling of the entries it returns, possibly with a trailing comma, and none of their keys is a keyword. |
| OptionParser.SpelledIsParsed | scudo-proc-macros/src/lib.rs:73-78 | Completeness: the comma separated spelling of any entry list whose keys are not keywords, with or without a trailing comma, is parsed back to exactly that list. |
| OptionParser.RejectedValues | scudo-proc-macros/src/lib.rs:46-66 | These are rejected as invalid values: punctuation other than `-`, `-` followed by a non-literal, an identifier other than `true`/`false`, a group, and a missing value. A lone `-` at the end of the input fails on the missing token. |
| OptionParser.MissingEqualsRejected | scudo-proc-macros/src/lib.rs:39-40 | A key not followed by `=` is refused, both as an entry and as the first entry of a list: as a missing `=`, or as a missing key when the key is a keyword. |
| OptionParser.KeywordKeyRejected | scudo-proc-macros/src/lib.rs:39 | A keyword in key position is refused whatever follows it, so `type = 1` is rejected. |
| OptionParser.LaterKeywordKeysAccepted | scudo-proc-macros/src/lib.rs:37-40 | The keywords added after the 2015 edition are keys like any other: `dyn = 1` and `async = true` parse to one entry each, and `await` and `try` are not refused. |
| OptionParser.LiteralAcceptedVerbatim | scudo-proc-macros/src/lib.rs:58 | Any literal token is accepted with no check of its text, and it is rendered by that text. |
| OptionString.OptionsString | scudo-proc-macros/src/lib.rs:102-108 | The options string ends in NUL, its only NUL when no entry holds one. When keys hold no `:` or `=` and values no `:`, it has one `:` per entry and the reference decoder reads back every key and value, in order. |
| OptionString.RenderAppend | scudo-proc-macros/src/lib.rs:103-106 | Rendering distributes over concatenation of entry lists: the order is kept and entries are not merged or deduplicated. |
| OptionString.OptionsStringShape | scudo-proc-macros/src/lib.rs:103-108 | If no entry contains a NUL, the string holds exactly one NUL. If keys and values contain no `:`, there is exactly one `:` per entry, the last entry included. |
| OptionString.DecodeOptionsString | scudo-proc-macros/src/lib.rs:103-108 | Round trip: if keys hold no `:` or `=` and values hold no `:`, the decoder gives back every entry's key and value, in order. The decoder strips the NUL, cuts at `:`, and cuts each piece at its first `=`. |
| OptionString.EmptyOptions | scudo-proc-macros/src/lib.rs:103-108 | An empty option list gives the string consisting of the terminator alone. |
| OptionString.InvalidFlagExample | scudo/src/bin/scudo_test_macro.rs:23 | `invalid = true` renders as `invalid=true:` followed by NUL. |
| OptionString.TwoEntryExample | scudo-proc-macros/src/lib.rs:104-108 | A boolean entry and a negative-number entry render in order, each closed by `:`, with a single NUL at the end. |
| OptionsMacro.SetScudoOptions | scudo-proc-macros/src/lib.rs:86-126 | The accessor is emitted if and only if the item is a function named `main` and the options parse. An item that is not a function gives the unchanged item followed by the "not a function" error, and any other function the item followed by the "not main" error. On `main`, options that do not parse give exactly one compile error carrying the parse error, with the item dropped. On success the output is exactly the unchanged item followed by the accessor for the options string. |
| OptionsMacro.NameCheckedBeforeOptions | scudo-proc-macros/src/lib.rs:94-100 | For a function not named `main`, the expansion does not depend on the attribute: even malformed options give the item followed by the "not main" error. |
| OptionsMacro.ExpansionRoundTrip | scudo-proc-macros/src/lib.rs:100-125 | End to end: on `main`, the spelling of an entry list whose keys are not keywords expands to the untouched item plus an accessor for that list's options string. This holds with or without a trailing comma, and for any literal text, `:` included. When no key holds `:` or `=` and no value holds `:`, the accessor's string decodes back to the entries' keys and values. |
| OptionsMacro.ColonValueExpands | scudo-proc-macros/src/lib.rs:100-125 | A literal holding `:` is not refused: `foo = "a:b"` on `main` expands to the item plus an accessor for `foo="a:b":` and the NUL. |
| OptionString.ColonValueExample | scudo-proc-macros/src/lib.rs:103-108 | That string has two `:` for one entry, since a literal is rendered by its text unchanged. |
| OptionsMacro.InvalidFlagExpansion | scudo/src/bin/scudo_test_macro.rs:21-24 | `#[set_scudo_options(invalid = true)]` on `main` keeps `main` unchanged and adds an accessor for `invalid=true:` followed by NUL. |
| OptionsMacro.BadValueExpansion | scudo-proc-macros/src/lib.rs:59-62 | On `main`, an identifier value other than `true`/`false` makes the whole expansion a single compile error, with neither the item nor an options string. The error is the invalid value, or the missing key when the key is a keyword. |
| Engine.PosixMemalign | src/ffi.rs:9-10 | The engine's allocation entry point. Status 0 happens exactly when the engine grants the request. Every live chunk keeps a non-null address below `usize::MAX`. |
| Engine.Free | src/ffi.rs:6 | The engine's release entry point. The call returns normally exactly for null or a live pointer. Any other pointer makes the engine abort. Live chunks keep valid addresses. |
| Engine.Disable | src/ffi.rs:19-22 | `malloc_disable` takes the global lock: afterwards the engine is disabled, its chunks are unchanged, and one call is recorded. |
| Engine.Enable | src/ffi.rs:19-22 | `malloc_enable` releases the global lock: afterwards the engine is enabled, its chunks are unchanged, and one call is recorded. |
| Engine.Iterate | src/ffi.rs:11-17 | `malloc_iterate` over a `usize` window records the call, then reports every live chunk of `[base, base + size)` and nothing else. The chunks and the lock state are unchanged. |
| Engine.LockHeldDuringReports | src/ffi.rs:41-45 | In the disable, iterate, enable sequence, the lock is held at every chunk report, whatever its state before. The engine is enabled at the end. |
| Engine.FullWindow | scudo/src/lib.rs:71-76 | The window `[0, usize::MAX)` covers every live chunk. |
| Engine.EmptyWindow | src/ffi.rs:11-17 | A window of size 0 holds no chunk, so nothing is reported. |
| GlobalAllocator.AlignmentFloor | src/global_allocator.rs:14-17 | The effective alignment is one of its two inputs, at least the pointer size and at least the requested alignment. It is a power of two, a multiple of the requested alignment, and accepted by `posix_memalign`. |
| GlobalAllocator.Alloc | scudo/src/lib.rs:24-38 | `alloc` makes exactly one `posix_memalign` call, with the effective alignment and the size unchanged. It returns a non-null pointer exactly when the engine grants the request; otherwise it returns null and allocates nothing. A returned pointer is fresh, aligned to the layout and to the pointer size, and now live with the requested size. The lock state is unchanged. |
| GlobalAllocator.Dealloc | src/global_allocator.rs:25-27 | `dealloc` makes exactly one `free` of the pointer as given, with no null check of its own. Null leaves the live chunks unchanged, a live pointer is removed from them, and any other pointer aborts. |
| GlobalAllocator.DeallocIgnoresLayout | scudo/src/lib.rs:39-41 | The outcome of `dealloc` is the same whatever layout is passed. |
| GlobalAllocator.AllocThenDealloc | scudo/src/lib.rs:24-41 | Freeing what `alloc` returned, null included, succeeds. It restores exactly the live chunks from before the allocation. |
| GlobalAllocator.PrintStats | scudo/src/lib.rs:46-48 | `print_stats` changes neither the live chunks nor the lock. It only records one call into the engine. |
| GlobalAllocator.Contains | scudo/src/lib.rs:59-64 | The `contains` callback keeps the target size, and raises the count by one exactly when the chunk's size equals the target; otherwise the count is unchanged. |
| GlobalAllocator.CountByVisit | scudo/src/lib.rs:59-64 | Folding `contains` over an enumeration with no repeated chunk adds exactly the number of distinct chunks whose size equals the target. |
| GlobalAllocator.CountAllocationsBySize | scudo/src/lib.rs:67-80 | The count helper returns the number of chunks of exactly the given size in the window `[0, usize::MAX)`, which is every live chunk. It makes the calls disable, iterate, enable. It leaves the chunks unchanged and the engine enabled. |
| GlobalAllocator.AllocAddsOneChunk | scudo/src/lib.rs:86-87 | A granted `alloc` adds exactly one live chunk of the requested size and none of any other size. |
| GlobalAllocator.DeallocRemovesOneChunk | scudo/src/lib.rs:88-89 | `dealloc` of a live pointer removes exactly one live chunk of its size and none of any other size. |
| GlobalAllocator.AllocDeallocCountScenario | scudo/src/lib.rs:82-90 | The adapter test: `alloc` of 4242 bytes at alignment 16 returns a non-null pointer exactly when the engine grants it. The count then moves from 0 to 1, or stays 0 on a refusal, which is when the test's assertion fails. `dealloc` leaves it at 0. This holds for every order in which the engine may report chunks. |
| Ffi.TrampolineForwards | src/ffi.rs:27-31 | Through the trampoline, the visitor is called once per report, with the address and size as reported. |
| Ffi.MapChunks | src/ffi.rs:33-46 | For a `usize` window, `map_chunks` makes exactly the calls disable, iterate over the given window unchanged, and enable. The visitor's state is the result of visiting every reported chunk in order. The chunks are unchanged and the engine ends enabled. |
| Ffi.RecorderSeesOrder | src/ffi.rs:27-31 | A recording visitor receives the reported `(address, size)` pairs in report order, one call per report. |
| Ffi.MapChunksVisitsWindowOnce | src/ffi.rs:33-46 | The visitor is called once for every chunk of the window and for nothing else, with no chunk visited twice. |
| Ffi.EmptyWindowNoCalls | src/ffi.rs:41-45 | With an empty window the visitor is never called, and only the three lock and iterate calls are made. |
| Ffi.PrintStats | src/ffi.rs:49-51 | `print_stats` changes neither the live chunks nor the lock. |
| Ffi.SeenSize | src/ffi.rs:62-66 | The test's closure sets its flag on a chunk of exactly the target size and otherwise leaves it as it was, whatever the address. |
| Ffi.SeenSizeFinds | src/ffi.rs:59-71 | The test's closure ends with its flag set if and only if the flag was already set or some reported chunk has exactly the target size. |
| Ffi.HasChunkWithSize | src/ffi.rs:59-71 | The closure run through `map_chunks` over `[0, usize::MAX)` answers true if and only if some live chunk has exactly that size. The engine ends enabled with its chunks unchanged. |
| Ffi.MapAllocatorScenario | src/ffi.rs:53-81 | `test_map_allocator` starts with no 13378200-byte chunk. After a granted `posix_memalign` at alignment 16, the pointer is non-null and such a chunk is seen. After `free`, none is seen. This holds for every order in which the engine may report chunks. |

## Left out

- Build scripts, the C++ forwarding wrappers and the extern declarations in `scudo-sys`: they compile and forward only. The engine's source is not part of this model.
- Engine internals (size classes, rounding, quarantine, header checks) are left out. The engine is an abstract map of live chunks, and its choices are parameters: `Grant` for allocations, `order` for iteration.
- The crash fixtures and the `global_allocator` example: they show fail-fast behaviour or print output, and contain no adapter logic.
- The `&mut &mut dyn FnMut` to `void*` marshalling and the `transmute` in `callback`: pointer representation cannot be expressed. The model passes the visitor to the trampoline directly.
- Concurrency, real mutual exclusion, and the deadlock of a visitor that allocates: the lock is a flag in a sequential trace.
- Release of the lock by a panicking visitor: the code has no guard for it, so a visitor is modelled as a total function.
- `test_vec_uses_scudo`, `test_box_uses_scudo` and `test_1byte_box_uses_scudo`: they depend on how `Vec` and `Box` call the host allocator. Their count steps are the general `GlobalAllocator.AllocAddsOneChunk` and `GlobalAllocator.DeallocRemovesOneChunk`.
- OptionParser.KeywordsOfLength: the refused words follow the identifier rule of `syn` 1, which is not part of this model. The `syn` version is read off the one-argument `parse_terminated` call. A raw identifier such as `r#type` is a different identifier and is accepted.
- Ffi.MapChunks: the window is read as the interval `[base, base + size)` of unbounded integers. When `base + size` passes 2^64 the engine's own handling of the wrapped end is not modelled, and every live chunk from `base` up is reported.
- Engine.Iterate: the same unbounded reading of `[base, base + size)`. A window whose end passes 2^64 reports every live chunk from `base` up, and the engine's handling of the wrapped end is not modelled.
- OptionParser.ParseValue: literal tokens are carried as their source text, and the lexer's own rules for what forms a literal are not modelled.
- Spans and the wording of compiler diagnostics are left out. A rejection is its error kind, and the diagnostic texts are not kept.
- OptionsMacro.SetScudoOptions: whether an item parses as a function is an input (`Item.fnName`), not a model of the `syn` function grammar. The accessor's Rust code (`#[no_mangle] const extern "C" fn … -> *const c_char`) is represented by the string it returns.
- Engine.PosixMemalign: a grant is a non-null address; a zero-size request answered with status 0 and a null pointer is not among the engine's modelled answers.
- The 32-bit targets: the pointer size and `usize::MAX` are fixed at their 64-bit values.
