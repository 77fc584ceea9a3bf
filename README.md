# clish / lub / lubheap core, modelled in Dafny

This project models the sequential decision logic at the centre of the clish
command-line shell and of the lub support library it is built on. It then
proves what that logic promises. The model covers:

- **Partition quota** (`LubPartition`, lub/partition). A partition starts
  with a byte ceiling: its memory limit less the size of its own record.
  `lub_partition_sysalloc` asks the system for memory only when the request
  is strictly below the ceiling. It lowers the ceiling by exactly the bytes
  granted. `lub_partition_kill` raises the dying flag.
- **`lub_bintree_findfirst`** (`LubBinTree`). It swaps the client comparator
  for `compareleft`, which always answers 1. It then splays the root with the
  NULL key, restores the comparator, and answers the leftmost node. The tree
  is a `Tree<T>` value held by a `BinTree` object. `lub_bintree_splay` is
  given as a function whose contract is the one the rest of the library
  relies on: the tree order is kept, and the node the search reaches comes to
  the root.
- **The libc allocation shim** (`SysHeap`, lubheap/posix/sysheap.c). This
  covers:
  - the alignment table of `memalign`;
  - the segment size rule, `2 * max(required, 64K)` in `size_t`;
  - the one-shot initialisation flag;
  - the "on FAILED extend once, retry once" protocol;
  - which status yields NULL;
  - which diagnostic `sysheap_check_status` selects.

  `sbrk`, `lub_heap_create`, `lub_heap_add_segment`, `lub_heap_realloc` and
  the leak toggles are collaborators whose answers are given as parameters
  (an `Oracle`). A `Shim` object records every call made to them, in order,
  in `trace`. It records the diagnostics written in `diagnostics`.
- **A clish view** (`ClishView`, clish/view/view.c). This is a view's
  command table and its operations:
  - duplicate-rejecting insertion;
  - longest-run prefix resolution over the words of a line;
  - the "does it do anything" filter;
  - the completion search;
  - teardown.

  The view's command tree is held as its tree-order sequence. The words of a
  line are given as a sequence.
- **Find-or-create of a parameter type** (`ClishShell`,
  clish/shell/shell_find_create_ptype.c). A ptype is looked up by name and
  created when absent. An existing one takes only the fields whose
  arguments are supplied.
- **The string utilities** the view relies on (`LubString`, lub/string.h):
  - `dup`, `dupn`, `cat` and `catn`;
  - `suffix`;
  - case-insensitive compare (`nocasecmp`);
  - case-insensitive search (`nocasestr`).

  `strcmp` and `nocasecmp` are proved against an independent lexicographic
  order.

Fixed-width arithmetic is written out where the source relies on it
(`MachineTypes`):
- `size_t` is `0 .. 2^64-1` and `unsigned` is `0 .. 2^32-1`.
- The subtraction in `lub_partition_init` wraps.
- The doubling `required <<= 1` drops its top bit.
- `nmemb * size` in `calloc` wraps.

Two behaviours of the code are worth calling out; the model keeps both:
- **Killed partitions still grant memory.** `lub_partition_sysalloc`
  (lub/partition/partition_sysalloc.c:9-23) never reads `m_dying`, so a
  killed partition still grants memory.
  `LubPartition.KilledPartitionStillGrants` shows it.
- **`calloc` zero-fills only part of the block.** It requests
  `nmemb * size` bytes but zero-fills only the first `size` bytes
  (lubheap/posix/sysheap.c:151-155). The model keeps this.

The order of the command tree comes from `clish_command_bt_compare`. That
comparator is not part of this model. The comment at clish/view/view.c:142
says the comparison is case-insensitive, so the model orders commands by
`lub_string_nocasecmp` of their names. A lookup finds the name equal to the
key ignoring case. `lub_bintree_findnext` answers the first command whose
name sorts strictly after the key, ignoring case.

## Model

| member | source | states |
|---|---|---|
| `MachineTypes.SubWrap` | lub/partition/partition_init.c:22 | `size_t` subtraction: the plain difference when it does not underflow, otherwise the difference plus 2^64 |
| `MachineTypes.ShiftLeftOne` | lubheap/posix/sysheap.c:69 | `required <<= 1` on `size_t`: exact doubling below 2^63, doubling less 2^64 from there on |
| `MachineTypes.MulWrap` | lubheap/posix/sysheap.c:151 | `nmemb * size` on `size_t`: the exact product when it fits in 64 bits, otherwise a value strictly below the true product |
| `LubPartition.SysallocOutcome` | lub/partition/partition_sysalloc.c:9-23 | a block is granted exactly when `required` is strictly below the ceiling and `malloc` answered non-NULL; then the ceiling drops by exactly `required` and stays strictly positive; otherwise the result is NULL and the ceiling is unchanged |
| `LubPartition.QuotaConserved` | lub/partition/partition_sysalloc.c:14-19 | over any series of sysalloc calls the ceiling never rises, and the final ceiling plus the bytes granted equals the initial ceiling |
| `LubPartition.Partition.Init` | lub/partition/partition_init.c:17-25 | the spec is copied, the ceiling is the memory limit less the record size (wrapping in `size_t`), the dying flag is clear and there is no global heap |
| `LubPartition.Partition.Kill` | lub/partition/partition_init.c:9-15 | the dying flag is raised |
| `LubPartition.Partition.Sysalloc` | lub/partition/partition_sysalloc.c:9-23 | the result and the new ceiling are those of SysallocOutcome on the old ceiling; `malloc` is called, once and with `required`, exactly when `required` is strictly below the old ceiling; nothing else changes (spec, dying flag and heaps are neither read nor written) |
| `LubPartition.KilledPartitionStillGrants` | lub/partition/partition_sysalloc.c:14-19 | after kill, a request below the ceiling is still granted and the ceiling drops by it, and one above the ceiling is still refused without a `malloc` call |
| `LubBinTree.Splay` | lub/bintree/bintree_findfirst.c:51-54 | the splayed tree has the same tree order, is empty exactly when the input was, and has at its root the node the search for the key reaches |
| `LubBinTree.CompareLeftReachesFirst` | lub/bintree/bintree_findfirst.c:65-79 | a search driven by `compareleft` (always 1, whatever the node and key) reaches the first node in tree order |
| `LubBinTree.BinTree.FindFirst` | lub/bintree/bintree_findfirst.c:39-63 | the client comparator is restored, no node is added or removed (tree order unchanged), the answer is None exactly when the tree was empty, and otherwise it is the new root's node and the first node in tree order |
| `SysHeap.AlignmentClass` | lubheap/posix/sysheap.c:221-249 | an alignment the table accepts is a power of two 2^k with k in 2..27, and it maps to the class for that k |
| `SysHeap.AlignmentClassComplete` | lubheap/posix/sysheap.c:223-248 | every 2^k with k in 2..27 is accepted and mapped to the class for that k |
| `SysHeap.AlignmentClassExact` | lubheap/posix/sysheap.c:221-249 | an alignment is accepted if and only if it is 2^k for some k in 2..27; every other value fails |
| `SysHeap.SegmentSize` | lubheap/posix/sysheap.c:64-69 | a segment request is twice the larger of `required` and 64K, when the doubling does not overflow |
| `SysHeap.SegmentSizeCovers` | lubheap/posix/sysheap.c:84-89 | without overflow a segment holds at least twice the request and at least one 128K chunk |
| `SysHeap.SegmentSizeOverflows` | lubheap/posix/sysheap.c:84-89 | from 2^63 bytes on, the `size_t` doubling wraps and yields a segment smaller than the request |
| `SysHeap.Diagnose` | lubheap/posix/sysheap.c:101-145 | nothing is reported exactly when the status is OK |
| `SysHeap.DiagnoseDistinguishes` | lubheap/posix/sysheap.c:108-143 | each of CORRUPTED, DOUBLE_FREE, INVALID_POINTER and FAILED selects its own diagnostic, which names the entry point |
| `SysHeap.RetryReply` | lubheap/posix/sysheap.c:195-204 | a non-FAILED first answer is final; after a FAILED first answer, a failed extension leaves the first answer (still FAILED) and a successful one gives the retry's answer; so a FAILED final answer means the first answer failed and either the extension failed or the retry failed too |
| `SysHeap.RetriesAtMostOnce` | lubheap/posix/sysheap.c:290-299 | the heap is asked twice exactly when its first answer was FAILED and the extension obtained a segment, and once otherwise; it is extended by exactly one sbrk after a FAILED first answer and never otherwise |
| `SysHeap.Shim.constructor` | lubheap/posix/sysheap.c:33-39 | before any entry point runs, the flag is clear, there is no heap and nothing has been called or reported |
| `SysHeap.Shim.InitMemory` | lubheap/posix/sysheap.c:51-77 | the first call sets the flag, obtains one segment of SegmentSize bytes and creates the heap over it; every later call changes nothing |
| `SysHeap.Shim.ExtendMemory` | lubheap/posix/sysheap.c:79-99 | one sbrk of SegmentSize bytes; the segment is added to the heap, and success reported, exactly when sbrk answered non-NULL |
| `SysHeap.Shim.ReallocWithRetry` | lubheap/posix/sysheap.c:191-204 | the calls made are one heap request, then on FAILED one extension and, if it succeeded, one more request; the status and block are those of RetryReply |
| `SysHeap.Shim.CheckStatus` | lubheap/posix/sysheap.c:101-145 | appends the one diagnostic the status selects, or nothing for OK |
| `SysHeap.Shim.Free` | lubheap/posix/sysheap.c:165-179 | initialises the heap with 0, issues one size-0 native-alignment heap request for the pointer and reports its status as "free" |
| `SysHeap.Shim.Cfree` | lubheap/posix/sysheap.c:159-163 | the same calls, state and report as Free |
| `SysHeap.Shim.Malloc` | lubheap/posix/sysheap.c:181-210 | initialises, requests with recovery, reports the final status as "malloc" with a NULL block, and returns the block the heap left whatever the status |
| `SysHeap.Shim.Calloc` | lubheap/posix/sysheap.c:147-157 | mallocs the wrapped product `nmemb * size` and zero-fills only `size` bytes, only when the pointer is non-NULL |
| `SysHeap.Shim.Memalign` | lubheap/posix/sysheap.c:212-273 | never initialises; an alignment outside the table makes no heap call, reports FAILED and returns NULL; otherwise requests with recovery and returns the block only when the final status is OK |
| `SysHeap.Shim.Realloc` | lubheap/posix/sysheap.c:275-305 | initialises, resizes the old pointer with recovery, reports the final status and returns the block only when it is OK |
| `SysHeap.Shim.Valloc` | lubheap/posix/sysheap.c:307-311 | the calls, reports and result of memalign with the 4096-byte page alignment |
| `SysHeap.Shim.SuppressLeakDetection` | lubheap/posix/sysheap.c:313-320 | one leak-suppress call on the heap, nothing else |
| `SysHeap.Shim.RestoreLeakDetection` | lubheap/posix/sysheap.c:322-329 | one leak-restore call on the heap, nothing else |
| `LubString.Dup` | lub/string.h:39-58 | the copy has the same content as the original, and NULL stays NULL |
| `LubString.DupN` | lub/string.h:121-145 | the copy is the prefix of the original of length `min(length, strlen)` |
| `LubString.Cat` | lub/string.h:59-85 | the string becomes the old string (NULL read as empty) followed by the text; without resources it is left unextended |
| `LubString.CatSuffix` | lub/string.h:60-72 | the result splits back into the old string followed by exactly the appended text |
| `LubString.CatN` | lub/string.h:86-120 | appends the first `min(length, strlen(text))` characters of the text; without resources the string is left unextended |
| `LubString.CatNWhole` | lub/string.h:101-103 | a length at least the text's length makes catn the same as cat |
| `LubString.Suffix` | lub/string.h:146-166 | the answer is a suffix of the input that holds no white space, and is preceded by white space whenever it is shorter than the input |
| `LubString.SuffixOfWord` | lub/string.h:146-158 | a string with no white space is its own suffix |
| `LubString.StrCmp` | clish/view/view.c:21-28 | `strcmp` is zero exactly for equal strings, negative exactly when the first sorts before the second lexicographically, positive exactly when after |
| `LubString.LexBeforeIsLexLess` | clish/view/view.c:21-28 | the character-by-character order agrees, in both directions, with the lexicographic order `strcmp` follows (a proper prefix, or a smaller character at the first difference) |
| `LubString.LexBeforeTrans` | clish/view/view.c:21-28 | the lexicographic order is transitive |
| `LubString.LexBeforeAsymmetric` | clish/view/view.c:21-28 | the lexicographic order is irreflexive and asymmetric |
| `LubString.NoCaseCmp` | lub/string.h:167-191 | zero exactly when the strings are equal ignoring case, negative or positive exactly as the first sorts before or after the second ignoring case |
| `LubString.NoCaseLessIsLexBefore` | lub/string.h:167-191 | the case-insensitive order is exactly the lexicographic order of the two strings folded to lower case |
| `LubString.NoCaseCmpIsStrCmpOfLower` | lub/string.h:167-191 | nocasecmp has the sign `strcmp` has on the two strings folded to lower case |
| `LubString.NoCaseCmpAntisymmetric` | lub/string.h:167-191 | swapping the arguments of nocasecmp swaps the sign of its answer |
| `LubString.NoCaseLessTrans` | lub/string.h:167-191 | the case-insensitive order is transitive |
| `LubString.NoCaseLessAsymmetric` | lub/string.h:167-191 | the case-insensitive order is irreflexive and asymmetric, and strings equal ignoring case are not ordered |
| `LubString.NoCaseStr` | lub/string.h:192-217 | answers the position of the first case-insensitive occurrence of the text, or None exactly when it occurs nowhere |
| `LubString.NoCaseStrAtStart` | clish/view/view.c:247 | nocasestr answers the very start of the name exactly when the line is a case-insensitive prefix of the name |
| `LubString.JoinSnoc` | clish/view/view.c:163-177 | growing the buffer by a space and the next word gives the next words joined with single spaces |
| `ClishView.FindCommand` | clish/view/view.c:211-216 | a found command is in the tree and equals the key ignoring case; None exactly when no command does |
| `ClishView.FindNextFromStops` | clish/view/view.c:241 | the successor scan passes only over names that do not sort after the key, ignoring case, and stops at the first that does, or at the end |
| `ClishView.SuccessorIsStrict` | clish/view/view.c:241 | in a sorted tree, the positions from the successor on are exactly those whose names sort after the key |
| `ClishView.NextOfMember` | clish/view/view.c:241-243 | in a sorted tree, the successor of a command's own name is the next command |
| `ClishView.NextOfMemberFrom` | clish/view/view.c:241-243 | in a sorted tree, the successor scan for a command's own name, started anywhere up to that command, ends just past it |
| `ClishView.Insert` | clish/view/view.c:129 | insertion fails exactly when a command of the same name ignoring case is present; otherwise the tree stays sorted and holds exactly one more command, the new one |
| `ClishView.Remove` | clish/view/view.c:73 | the tree loses exactly one occurrence of the command |
| `ClishView.DepthRun` | clish/view/view.c:159-178 | every join of leading words within the resolved depth names a command |
| `ClishView.DepthStops` | clish/view/view.c:159-178 | the join just past the resolved depth, when there is one, names no command |
| `ClishView.LongestMatchSpec` | clish/view/view.c:159-184 | the prefix match names `words[..d]` joined with single spaces for the largest d whose shorter joins all name commands; it is None exactly when there are no words or the first word names no command |
| `ClishView.View.constructor` | clish/view/view.c:42-62 | a new view has the given name and prompt and no commands |
| `ClishView.View.SetPrompt` | clish/view/view.c:267-273 | only a view without a prompt is given one, a copy of the argument |
| `ClishView.View.NewCommand` | clish/view/view.c:116-137 | without help text the command is returned and not inserted; with help text a duplicate name yields None and leaves the tree unchanged, and otherwise the command is added and returned; the tree stays sorted |
| `ClishView.View.ResolvePrefix` | clish/view/view.c:147-185 | the answer is the longest match of the words |
| `ClishView.View.ResolveCommand` | clish/view/view.c:187-209 | the longest match, unless it has no action, no builtin and no view, in which case None |
| `ClishView.ScanConcludes` | clish/view/view.c:241-251 | a scan from the successor that skipped only non-completions has found the first completion when it stops at one, and has shown there is none when it runs off the end |
| `ClishView.View.FindNextCompletion` | clish/view/view.c:218-257 | the answer is the first command in tree order after the given one's name (after "" when none) whose word count is the target (argv count, plus one for an empty line or a trailing space) and whose name the line begins ignoring case; None exactly when no later command qualifies |
| `ClishView.View.Fini` | clish/view/view.c:64-84 | every command is removed, in tree order, and released; then the tree is empty and name and prompt are cleared |
| `ClishView.BtCompare` | clish/view/view.c:20-28 | the view comparator is `strcmp` of the view's name with the key: zero, negative or positive as the name equals, sorts before or sorts after it |
| `ClishView.BtGetKeyMatches` | clish/view/view.c:30-38 | the key of a view is its name verbatim, so the view compares equal to its own key |
| `ClishShell.Upsert` | clish/shell/shell_find_create_ptype.c:16-39 | the name is always the requested one, and an absent ptype is built from all the arguments |
| `ClishShell.UpsertExisting` | clish/shell/shell_find_create_ptype.c:25-39 | an existing ptype takes pattern, method and preprocess exactly when a pattern is supplied, takes the text exactly when one is supplied, and keeps every other field |
| `ClishShell.UpsertIdempotent` | clish/shell/shell_find_create_ptype.c:16-39 | repeating the same find-or-create changes nothing more |
| `ClishShell.UpsertBareMention` | clish/shell/shell_find_create_ptype.c:27-38 | with neither pattern nor text an existing ptype is left as it was |
| `ClishShell.UpsertFullMentionWins` | clish/shell/shell_find_create_ptype.c:27-38 | with both pattern and text the result is what a fresh creation would give |
| `ClishShell.PType.constructor` | clish/shell/shell_find_create_ptype.c:21 | a new ptype holds exactly the given attributes |
| `ClishShell.PType.SetPattern` | clish/shell/shell_find_create_ptype.c:30 | the pattern and the method are set together |
| `ClishShell.PType.SetPreprocess` | clish/shell/shell_find_create_ptype.c:32 | the preprocess is set |
| `ClishShell.PType.SetText` | clish/shell/shell_find_create_ptype.c:37 | the help text is set |
| `ClishShell.Shell.FindCreatePType` | clish/shell/shell_find_create_ptype.c:8-41 | always answers a ptype filed under the name; an absent one is a fresh object inserted with all the arguments, an existing one is the very same object, with no insertion, updated as Upsert says; every ptype stays filed under its own name |

## Left out

- Mutexes (`pthread_mutex_*` in the shim, the partition's lock): the model is sequential; lock and unlock are no-ops.
- `sbrk`, `malloc`, `lub_heap_create`, `lub_heap_add_segment`, `lub_heap_realloc` and the leak toggles: their bodies are not part of this model. Their answers are parameters. The shim records its calls in order in `SysHeap.Shim`'s trace, and a partition records the sizes it calls `malloc` with in `LubPartition.Partition`'s `mallocCalls`. Memory contents are not modelled, so `memset` in calloc is a recorded `ZeroFill` call.
- `sbrk`'s failure value `(void*)-1`: the shim tests the segment against NULL only, and the model does the same; the value sbrk answers is whatever the parameter says.
- `lub_partition_time_to_die`, which `lub_partition_kill` calls after raising the flag: it is not part of this model.
- `sizeof(lub_partition_t)` is a parameter of `Init` (`recordSize`), since the record layout is not part of this model.
- `lub_bintree_splay`, `lub_bintree_insert`, `find`, `findnext`, `remove` and `lub_bintree_init` are not part of this model. They are given the contracts the callers rely on. `LubBinTree.Splay` rotates by move-to-root rather than by the library's zig-zig/zig-zag splay, so only the tree order and the root are claimed.
- The view's command tree is its tree-order sequence rather than a splay tree, so tree shape, node identity and the intrusive `bt_node` links are not modelled. `clish_command_bt_compare` is not part of this model; the case-insensitive order comes from the comment at clish/view/view.c:142.
- `lub_argv_new` and `lub_argv_wordcount` are not part of this model: the words of a line are a parameter, and `LubString.CountWords` counts maximal runs of non-white-space characters without argv's quoting rules.
- The `clish_command_*` accessors and `clish_variable_expand` are not part of this model. A command is a record with optional action, builtin and view. `clish_command__get_action`'s variable expansion is read as "the action is present". `clish_view__get_prompt` and `clish_view__get_name` are left out for the same reason.
- `clish_view_new`'s `malloc` failure path and `clish_view_delete`'s `free`: allocation is not modelled; the constructor is init.
- The ptype setters (`clish_ptype__set_pattern`, `set_preprocess`, `set_text`) and `clish_ptype_new` are not part of this model: they are plain field assignments here, without regex compilation or copying.
- The ptype tree is a map keyed by exact name. `clish_ptype_bt_compare` is not part of this model.
- The method and preprocess enumerations are carried as their ordinals.
- `LubString.StrCmp`, `LubString.NoCaseCmp`: only the sign of the answer is stated, not its magnitude (the C functions promise only the sign).
- `ClishView.View.ResolvePrefix`: assumes `lub_string_cat` always extends the buffer. clish/view/view.c:164 and :177 do not check for the resource-exhaustion case in which lub/string.h:70-71 leaves the buffer unextended.
- Strings are sequences of characters with no NUL inside them; `ToLower` folds ASCII letters only.
- `lub_string_free`, `printf` output, lub/partition/partition_show.c, clish/shell/shell_dump.c and clish/shell/shell_getfirst_command.c: these release memory or print, so they are left out.
