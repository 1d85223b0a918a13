# t2kdm core, modelled in Dafny

t2kdm is the T2K experiment's data manager for files on the grid. This
project models its core:

- the storage-element registry (`storage.py`): the standard storage path of
  a logical file, the distance between two storage elements, and the reverse
  lookup from a replica locator to the element that holds it;
- the result cache (`cache.py`): entries that expire, lookups, stores,
  cleaning, and calling a wrapped function through the cache;
- the grid backend (`backends.py`): base-directory handling, listing,
  directory detection, replica listing with state and checksum columns,
  (recursive) replication, download, the suppression of repeated output
  lines, the conversion between text and line output, and `get_backend`;
- the utilities `remote_iter_recursively`, `check_checksums` and
  `check_replicas` (`utils.py`);
- the command layer (`commands.py`): how `add_argument` records argument
  names, how `_condition_argument` makes path arguments absolute, how `run`
  builds the call, and `run_from_cli`, which returns `False` unless the
  command raises an exception it does not catch.

Modules: `Wrappers` (Option, Result), `Strings` (the Python string
operations the code uses: `split`, `split()`, `strip`, `in`, `count`,
`%-Ns`/`%N.Ns` padding), `PosixPath` (`isabs`, `join`, `basename`,
`normpath`), `Storage`, `ResultCache`, `Backends`, `Utils`, `Commands`.

How the outside world enters the model:

- The external tools (`lfc-ls`, `lcg-lr`, `lcg-ls`, `lcg-get-checksum`,
  `lcg-rep`, `lcg-cp`) are functions from an argument list to a
  `CmdResult`: an exit status, the output lines, and stderr. A tool error
  is `CommandFailed`, unless every exit code is accepted.
- The storage-element catalogue queries (`get_SE`, `has_replica`,
  `get_closest_SE` and `get_replica`) are the functions of a `Catalog`.
- The top-level calls used by `utils.py` are the functions of an `Api`.
- A regular expression is its search predicate, `string -> bool`.
- Time is an explicit `now` argument. A cache key is an abstract type
  standing for the pickled call arguments.
- `path.isdir(localpath)` is a boolean argument.
- The depth of the walk in `remote_iter_recursively` is bounded by a `fuel`
  argument.

Where the code and its documentation disagree, the model follows the code:

- `_iterable_output_from_text` raises `IndexError` on empty text in line
  mode.
- A recursive `replicate` ignores failing tool exit codes of its children.
  It does not ignore failures of storage-element resolution.
- A recursive `replicate` raises `TypeError` as soon as one of its children
  is a directory with children of its own, because that child names
  `_ok_code` twice. A caller that passes `_ok_code` itself gets `TypeError`
  from the first child call.
- `_replica_state` raises `IndexError` when the tool answers with fewer
  than six tokens.
- `get` with an explicit source does not check that the source holds a
  replica.
- `t2kdm.is_dir` and `t2kdm.checksum`, used by `utils.py`, are not defined
  in `t2kdm/__init__.py`. The model takes them as `Api` functions.

The two defects listed under "## Findings" are modelled as written as well:
`replicate` copies to the storage path `get_storage_path` computes, and its
recursion stops one level down. The corrected storage path and keyword
arguments are separate definitions with their own lemmas.

## Model

| member | source | states |
|---|---|---|
| Storage.GetStoragePathAsWritten | t2kdm/storage.py:27-29 | as written: an absolute logical path comes back unchanged, base path discarded; a relative one is appended to the base path |
| Storage.StoragePathAsWrittenDropsHost | t2kdm/storage.py:27-29 | for the first registered element, the storage path of `/nd280/test` is `/nd280/test` and does not hold the element's host |
| Storage.GetStoragePath | t2kdm/storage.py:27-29 | the storage path starts with the element's base path and the logical path can be read back after it |
| Storage.StoragePathContainsHost | t2kdm/storage.py:27-29 | a storage path holds the host named in the element's base path |
| Storage.CommonPrefix | t2kdm/storage.py:38 | the result is a prefix of both strings, and the first character after it differs (or one string ends) |
| Storage.CommonPrefixSymmetric | t2kdm/storage.py:38 | the common prefix does not depend on the order of the two strings |
| Storage.CommonPrefixSelf | t2kdm/storage.py:38 | the common prefix of a string with itself is the string |
| Storage.GetDistance | t2kdm/storage.py:31-42 | minus the `/` count of the common prefix of the locations; never positive (bounds in `DistanceBounds`) |
| Storage.DistanceBounds | t2kdm/storage.py:31-42 | the distance is at most 0 and at least minus the number of `/` in either location |
| Storage.DistanceSymmetric | t2kdm/storage.py:31-42 | distance(a, b) == distance(b, a) |
| Storage.DistanceToSelf | t2kdm/storage.py:31-42 | an element's distance to itself is minus its `/` count and no larger than its distance to any element |
| Storage.RegistryWellFormed | t2kdm/storage.py:45-82 | registered names are pairwise distinct and every location starts with `/` |
| Storage.RegistryDistanceSameSite | t2kdm/storage.py:45-55 | the two RAL elements are at distance -3 |
| Storage.CommonPrefixUpTo | t2kdm/storage.py:38 | strings that agree on `k` characters and then differ have those `k` characters as common prefix |
| Storage.DistanceWhenDiverging | t2kdm/storage.py:31-42 | locations that agree on `k` characters and then differ are minus the `/` count of those characters apart |
| Storage.DistanceAtFirstLevel | t2kdm/storage.py:31-42 | locations that differ right after the leading `/` are at distance -1 |
| Storage.DistanceAtSecondCharacter | t2kdm/storage.py:31-42 | locations that share `/` and one more non-`/` character, then differ, are at distance -1 |
| Storage.RegistryDistanceOtherContinents | t2kdm/storage.py:45-65 | elements on different continents are at distance -1 |
| Storage.FirstHostMatch | t2kdm/storage.py:86-89 | the index found is the first whose host occurs in the path; `None` exactly when no host occurs |
| Storage.GetSEByPath | t2kdm/storage.py:84-89 | `None` iff no registered host is a substring of the path; otherwise the first element whose host is one |
| Storage.GetSEByPathPrefersEarlier | t2kdm/storage.py:86-88 | a later element is never returned while an earlier one matches too |
| Storage.ShadowedHostNeverFound | t2kdm/storage.py:86-88 | an element whose host contains an earlier element's host is never found |
| ResultCache.Sweep | t2kdm/cache.py:26-30 | keeps exactly the valid entries, with their values |
| ResultCache.CacheEntry.IsValid | t2kdm/cache.py:15-16 | valid strictly before creation time plus cache time; `ValidBefore` states it stays valid going back |
| ResultCache.ValidBefore | t2kdm/cache.py:15-16 | an entry valid at some time is valid at every earlier time |
| ResultCache.Lookup | t2kdm/cache.py:36-46 | found iff the key is present and its entry valid, and then that entry |
| ResultCache.Store | t2kdm/cache.py:48-51 | the key holds the new entry; every other key is present and holds its entry exactly as before |
| ResultCache.ReadAfterWrite | t2kdm/cache.py:15-16 | a stored value is found at every time before creation time plus cache time |
| ResultCache.ExpiredNotFound | t2kdm/cache.py:15-16 | at creation time plus cache time and later, the entry is no longer found |
| ResultCache.StoreKeepsOtherKeys | t2kdm/cache.py:48-51 | storing under one key leaves every other key's lookup unchanged |
| ResultCache.SweepKeepsLookups | t2kdm/cache.py:26-30 | cleaning at `now` changes no lookup at `now` or later |
| ResultCache.CachedCall | t2kdm/cache.py:56-63 | a valid entry answers without calling the function; otherwise the function runs once and its result, success or error, is returned; a success is stored, a failure stores nothing |
| ResultCache.CachedCallsWithinCacheTime | t2kdm/cache.py:53-65 | a second call within the cache time does not run the function and returns its earlier value; a call after it runs the function again |
| ResultCache.Cache.constructor | t2kdm/cache.py:21-24 | the cache starts empty with the given cache time |
| ResultCache.Cache.GetEntry | t2kdm/cache.py:36-46 | returns the stored entry exactly when it is present and valid; changes nothing |
| ResultCache.Cache.AddEntry | t2kdm/cache.py:48-51 | overwrites the entry for the key; all other keys keep their entries |
| ResultCache.Cache.CleanCache | t2kdm/cache.py:26-30 | the entries afterwards are the valid entries of before |
| ResultCache.Cache.Cached | t2kdm/cache.py:56-63 | result, whether the function ran, and the new entries are those of `CachedCall` |
| PosixPath.Join | t2kdm/backends.py:155 | an absolute second part replaces the first; otherwise the result starts with the first part and ends with the second |
| PosixPath.Basename | t2kdm/backends.py:220 | the result is a `/`-free suffix of the path, preceded by `/` when shorter than it |
| PosixPath.Normpath | t2kdm/backends.py:35 | `normpath`; its properties are stated by `NormpathIsNormal` and `NormpathIdempotent` |
| PosixPath.NormpathIsNormal | t2kdm/backends.py:33-35 | `normpath` yields a normal form, absolute exactly when its argument is |
| PosixPath.NormpathIdempotent | t2kdm/backends.py:33-35 | normalising twice is normalising once |
| Strings.Strip | t2kdm/backends.py:153 | the result is a slice of the string with only whitespace before and after it, and has no whitespace at either end |
| Strings.StripWordNewline | t2kdm/backends.py:153 | a listing line, a name without whitespace followed by a newline, strips to that name |
| Strings.SplitWhitespaceWords | t2kdm/backends.py:265 | every token of `split()` is non-empty and free of whitespace |
| Strings.SplitWhitespaceJoin | t2kdm/backends.py:265 | splitting words joined by single spaces gives the words back |
| Strings.SplitWhitespaceSpaces | t2kdm/backends.py:265 | leading whitespace does not change `split()` |
| Strings.SplitWhitespaceInterleave | t2kdm/backends.py:265 | words separated by non-empty runs of whitespace, with any whitespace before and after, split into exactly those words |
| Strings.SplitWhitespaceLine | t2kdm/backends.py:265 | a newline-terminated line of words joined by single spaces splits into the words |
| Strings.JoinSplit | t2kdm/backends.py:88 | joining the pieces of a split with the separator gives the string back |
| Backends.NewLCGBackend | t2kdm/backends.py:228-232 | the base directory is `/grid` followed by the given one, or by `/t2k.org` |
| Backends.FullPath | t2kdm/backends.py:33-35 | `normpath` of the base directory followed by the relative path; its form is stated by `FullPathNormal` |
| Backends.FullPathNormal | t2kdm/backends.py:33-35 | a full path is in normal form, fixed by `normpath`, absolute when the base directory is |
| Backends.LCGFullPathAbsolute | t2kdm/backends.py:228-232 | every full path of an LCG backend is absolute |
| Backends.LsArgsOf | t2kdm/backends.py:242-251 | the path comes last; `-l` is there iff long, `-d` iff directory; nothing else precedes the path |
| Backends.LsArgs | t2kdm/backends.py:246-251 | builds the argument list of `LsArgsOf` |
| Backends.RunLs | t2kdm/backends.py:242-253 | `lfc-ls` run on the arguments of `LsArgsOf` |
| Backends.DirFlag | t2kdm/backends.py:55 | `IndexError` iff the listing is all whitespace; otherwise whether the first non-space character is `d` |
| Backends.IsDir | t2kdm/backends.py:53-59 | a failing listing raises; otherwise `IndexError` iff the long directory listing is all whitespace, else whether its first non-space character is `d` |
| Backends.FromText | t2kdm/backends.py:80-92 | text mode returns the text; line mode raises `IndexError` exactly on empty text and otherwise gives lines |
| Backends.FromTextLines | t2kdm/backends.py:88-92 | every line ends in its only newline; the lines concatenate to the text, plus a newline when it lacked a final one |
| Backends.FromTextAreLines | t2kdm/backends.py:88-92 | every line of a non-empty text ends in its only newline |
| Backends.FromTextConcat | t2kdm/backends.py:88-92 | the lines concatenate to the text, plus a newline when it lacked a final one |
| Backends.ConcatTerminate | t2kdm/backends.py:92 | terminated pieces concatenate to the pieces joined by newlines, plus a final newline |
| Backends.LinesRoundTrip | t2kdm/backends.py:80-106 | turning newline-terminated lines into text and back gives the same lines |
| Backends.IterableOutputFromIterable | t2kdm/backends.py:95-106 | line mode returns the lines, text mode their concatenation |
| Backends.ToOutput | t2kdm/backends.py:95-106 | line mode keeps the lines, text mode concatenates them; `IterableOutputFromIterable` and `LinesRoundTrip` state it |
| Backends.DedupAfter | t2kdm/backends.py:282-289 | never longer; no two adjacent lines equal; the first differs from the previous line |
| Backends.DedupAfterMembers | t2kdm/backends.py:282-289 | an output line is an input line, and every input line appears unless it equals the line printed before |
| Backends.Dedup | t2kdm/backends.py:282-289 | no two adjacent lines are equal |
| Backends.DedupMembers | t2kdm/backends.py:282-289 | the output holds exactly the lines of the input |
| Backends.IgnoreIdenticalLines | t2kdm/backends.py:282-289 | the loop yields `Dedup` of its input |
| Backends.DedupSubsequence | t2kdm/backends.py:282-289 | the output is a subsequence of the input (order kept) |
| Backends.DedupSnoc | t2kdm/backends.py:284-289 | one more line adds output exactly when it differs from the line before it |
| Backends.DedupIdempotent | t2kdm/backends.py:282-289 | suppressing repeats twice is suppressing them once |
| Backends.ReplicaState | t2kdm/backends.py:258-265 | `?` when `lcg-ls` fails; otherwise a non-empty whitespace-free token; failure is only `IndexError` |
| Backends.ReplicaChecksum | t2kdm/backends.py:267-279 | `?` when the tool fails or prints no token; never empty, never holds whitespace |
| Backends.ReplicaStateOfWords | t2kdm/backends.py:258-265 | for any listing made of words separated by whitespace of any width, with any whitespace at both ends: the state is the sixth word, and `IndexError` iff there are fewer than six |
| Backends.ReplicaChecksumOfWords | t2kdm/backends.py:267-279 | for any checksum output made of words separated by whitespace of any width, with any whitespace at both ends: the checksum is the first word, `?` when there is none |
| Backends.Column | t2kdm/backends.py:75 | `%-Ns ` pads to the width and never truncates |
| Backends.ReplicaLine | t2kdm/backends.py:75 | a replica line starts with the element name and ends with the locator |
| Backends.ReplicaLineColumns | t2kdm/backends.py:75 | type at column 33, state at 38, checksum right-aligned and cut to 8 ending at 54, locator from 55 |
| Backends.AddReplicaInfo | t2kdm/backends.py:72-77 | fails iff the state lookup fails; otherwise the formatted line of the matching element's name and type (or `UNKNOWN` and `?`), the state, the checksum and the locator |
| Backends.MapResults | t2kdm/backends.py:122-124 | succeeds iff every item does, then maps each item in order; a failure is the error of the first failing item |
| Backends.Replicas | t2kdm/backends.py:108-126 | tool failure raises; the short form is the tool output; the long form succeeds iff every line's `AddReplicaInfo` does, fails with the first failure, and gives line `i` as `AddReplicaInfo` of tool line `i` |
| Backends.ReplicaInfos | t2kdm/backends.py:122-124 | the long lines: succeeds iff every replica's `AddReplicaInfo` does, in order, else the first failure |
| Backends.ReplicasTextIsJoinedLines | t2kdm/backends.py:108-126 | the text form is the concatenation of the line form, and both fail alike |
| Backends.CopyOutput | t2kdm/backends.py:291-317 | fails iff the tool failed and exit codes are not all accepted; otherwise repeated lines suppressed |
| Backends.ChildPathsOf | t2kdm/backends.py:151-155 | no more child paths than listing entries |
| Backends.ChildPathsMembers | t2kdm/backends.py:151-155 | a child path is the join of an accepted stripped entry, and every accepted entry gives one |
| Backends.ChildPathsInOrder | t2kdm/backends.py:151-155 | plain recursion gives one child path per listing line, path `j` being the join of stripped line `j` |
| Backends.ChildPathsAppend | t2kdm/backends.py:151-155 | the child paths of two listings in turn are the first's followed by the second's |
| Backends.ChildPathsFilteredInOrder | t2kdm/backends.py:151-155 | a pattern's child paths are a subsequence of plain recursion's: listing order is kept |
| Backends.ChildPaths | t2kdm/backends.py:151-155 | the loop builds `ChildPathsOf` |
| Backends.ReplicationSource | t2kdm/backends.py:171-186 | closest replica or named element; fails with the matching message in each of the three error cases |
| Backends.ReplicateFile | t2kdm/backends.py:164-190 | an unknown destination raises `AttributeError`; line mode gives lines; the copy is stated by `ReplicateCopies` |
| Backends.Replicate | t2kdm/backends.py:131-190 | line mode gives lines; the cases are stated by the lemmas below |
| Backends.ReplicateChildren | t2kdm/backends.py:148-162 | no child paths give empty output; a caller's own `_ok_code` raises `TypeError` once there is a child |
| Backends.ReplicateAll | t2kdm/backends.py:156-162 | the chained child calls succeed iff every child call does |
| Backends.ChainLinesFailsAt | t2kdm/backends.py:161 | chaining the child outputs fails with the error of the first failing output |
| Backends.ChainLinesAppend | t2kdm/backends.py:161 | chaining two runs of outputs succeeds iff both do and gives the first run's lines before the second's |
| Backends.ChainLinesSingle | t2kdm/backends.py:161 | one output chains to its own lines, or fails with its error |
| Backends.ReplicateAlreadyPresent | t2kdm/backends.py:164-169 | a file already at the destination gives the notice and never runs `lcg-rep` |
| Backends.ReplicateSourceErrors | t2kdm/backends.py:172-186 | the three source errors with their messages |
| Backends.ReplicateCopies | t2kdm/backends.py:188-190 | as written: `lcg-rep -v --checksum -d <target> <source replica>` with the target of `get_storage_path`, which is the logical path itself when absolute |
| Backends.ReplicateDirectory | t2kdm/backends.py:148-162 | a directory with children gives the chained child calls' lines in the requested form, or their error; a caller's own `_ok_code` raises `TypeError` |
| Backends.ReplicateNestedDirectoryRaises | t2kdm/backends.py:150-160 | as written: a child directory with children, reached after successful siblings, makes the whole call raise `TypeError` |
| Backends.ReplicateAllFailsAt | t2kdm/backends.py:156-162 | the child calls fail with the error of the first failing child |
| Backends.ReplicateSameChildren | t2kdm/backends.py:142-162 | two recursion modes that select the same children replicate the same |
| Backends.ChildPathsAcceptAll | t2kdm/backends.py:154 | a pattern every name matches selects what plain recursion selects |
| Backends.ReplicatePatternAcceptingAll | t2kdm/backends.py:142-155 | replicating with a match-all pattern is replicating recursively |
| Backends.ChildPathsRejectAll | t2kdm/backends.py:154 | a pattern no name matches selects nothing |
| Backends.ReplicatePatternRejectingAll | t2kdm/backends.py:148-162 | a match-nothing pattern on a directory replicates nothing |
| Backends.LocalTarget | t2kdm/backends.py:218-220 | a local directory gets the remote basename appended; a file path is kept |
| Backends.DownloadSource | t2kdm/backends.py:202-213 | closest element or named element; error exactly when none is found |
| Backends.Get | t2kdm/backends.py:195-223 | a source-selection failure is the result; the copy is stated by `GetCopies` |
| Backends.GetCopies | t2kdm/backends.py:208-223 | with a source found, the result is `lcg-cp -v --checksum <replica> <local target>` with the caller's `_ok_code`; success iff the tool succeeds or every code is accepted |
| Backends.GetIgnoresHasReplica | t2kdm/backends.py:195-223 | `get` never asks whether the source holds a replica |
| Backends.GetAcceptsSourceWithoutReplica | t2kdm/backends.py:208-216 | `get` copies from a named source without a replica where `replicate` refuses it |
| Backends.GetBackend | t2kdm/backends.py:319-325 | succeeds iff the backend is `lcg`, with base directory `/grid` + the configured one; else `ConfigError` |
| Backends.ChildKeywordsAsWritten | t2kdm/backends.py:150-160 | as written: a child call raises `TypeError` iff `_ok_code` is already among the keyword arguments |
| Backends.NestedRecursionRaises | t2kdm/backends.py:150-160 | a grandchild call of a recursive replicate raises `TypeError` |
| Backends.ChildKeywords | t2kdm/backends.py:150-160 | corrected: children get `_iter` and `_ok_code` plus the caller's keywords |
| Backends.ChildKeywordsStable | t2kdm/backends.py:150-160 | corrected: the keywords are the same at every depth |
| Utils.IterRecursively | t2kdm/utils.py:13-29 | every yielded path is not a directory; a non-directory yields itself |
| Utils.IterChildren | t2kdm/utils.py:23-27 | every yielded path is not a directory |
| Utils.IterChildrenMembers | t2kdm/utils.py:23-27 | a yielded path comes from the walk of a matching child joined to the parent, with the same expression, and every such path is yielded |
| Utils.IterChildrenAppend | t2kdm/utils.py:23-27 | the walk over two listings in turn yields the first's paths before the second's, and completes iff both do |
| Utils.IterChildrenSingle | t2kdm/utils.py:24-27 | a single name yields its own walk when it matches and nothing otherwise |
| Utils.IterRecursivelyFuel | t2kdm/utils.py:13-29 | once the walk completes, more depth does not change it |
| Utils.IterAcceptingAll | t2kdm/utils.py:24 | a match-all pattern walks like no pattern |
| Utils.IterChildrenRejectingAll | t2kdm/utils.py:24 | a match-nothing pattern yields nothing from the children |
| Utils.IterRejectingAll | t2kdm/utils.py:22-27 | a match-nothing pattern on a directory yields nothing |
| Utils.AllEqual | t2kdm/utils.py:40-42 | true iff every replica's checksum equals the given one |
| Utils.CheckChecksums | t2kdm/utils.py:31-44 | `IndexError` iff there are no replicas; true iff the first checksum has no `?` and all others equal it |
| Utils.CheckedChecksumsAgree | t2kdm/utils.py:31-44 | after a successful check, any two replicas' checksums are equal and hold no `?` |
| Utils.CheckReplicas | t2kdm/utils.py:46-64 | raises for the first unknown name; otherwise true iff every element holds a replica |
| Commands.SliceFrom | t2kdm/commands.py:58 | Python `s[k:]`: the rest after `k`, or empty when shorter |
| Commands.Classify | t2kdm/commands.py:56-61 | keyword iff the first option starts with `-`, keyed by the second without its first two characters; `IndexError` on missing strings |
| Commands.Command.constructor | t2kdm/commands.py:42-43 | no arguments recorded yet |
| Commands.Command.AddArgument | t2kdm/commands.py:45-61 | appends the name to the positional or keyword list per `Classify`; changes nothing on `IndexError` |
| Commands.ReplicateCommand | t2kdm/commands.py:182-190 | `replicate` records `remotepath`, `destination` and `source`, `tape` |
| Commands.Anchor | t2kdm/commands.py:133-138 | unchanged unless the name has the marker and a directory is given; a non-string raises `AttributeError`; a changed value is a normal path, absolute iff the directory is |
| Commands.ConditionArgument | t2kdm/commands.py:128-140 | absolute values and unrelated names unchanged; relative `localpath`/`remotepath` anchored at their directory and normalised, an absolute local directory winning for a name with both markers; `AttributeError` exactly when a marked name with its directory set has a non-string value |
| Commands.AnchorAbsolute | t2kdm/commands.py:133-138 | anchoring at an absolute directory gives an absolute path |
| Commands.ConditionIdempotent | t2kdm/commands.py:128-140 | with absolute directories, conditioning twice is conditioning once |
| Commands.PositionalValues | t2kdm/commands.py:151-154 | one conditioned value per positional name, in order |
| Commands.KeywordValues | t2kdm/commands.py:156-159 | keys are exactly the keyword names, each with its conditioned value |
| Commands.RunSpec | t2kdm/commands.py:142-162 | positional values in order; keyword keys are the recorded ones plus the caller's; the caller's values win |
| Commands.PositionalFailureAt | t2kdm/commands.py:151-154 | a missing or unconditionable name fails the whole positional collection with its error |
| Commands.KeywordFailureAt | t2kdm/commands.py:156-159 | a missing or unconditionable name fails the whole keyword collection with its error |
| Commands.CollectPositional | t2kdm/commands.py:151-154 | the loop gives `PositionalValues` |
| Commands.CollectKeywords | t2kdm/commands.py:156-159 | the loop gives `KeywordValues` |
| Commands.Command.Run | t2kdm/commands.py:142-162 | the call `run` makes is `RunSpec` of the recorded names |
| Commands.RunFromCli | t2kdm/commands.py:90-121 | `False` for a syntax error, a completed or failing command, or an argparse exit, printing the output, the stderr or the error; any other exception propagates after the lines printed before it |

## Left out

- Running the external tools, `voms-proxy-init`, the network and the
  local file system: tools are functions of their arguments; `path.isdir`
  is an argument.
- Lazy generators: `ls`, `replicas` and the tool outputs are complete
  sequences. The order and content of the lines are kept; interleaving
  with the caller is not.
- `sh` keyword arguments other than `_iter` and `_ok_code`: `_err_to_out`
  is modelled by taking the tool's lines as stdout and stderr together.
- `_ok_code` as a list of exit codes: the model's `okAll` tells only
  "every exit code accepted" (the `list(range(-255,256))` of
  t2kdm/backends.py:160) from the default; a caller's partial list such as
  `_ok_code=[0, 1]`, which `get` forwards, has no counterpart.
- `GridBackend.__init__` rejecting unknown keyword arguments: the model's
  backends take only a base directory.
- Cache key hashing (`cPickle.dumps` and `hash`): keys are an abstract
  type; two calls share an entry exactly when their keys are equal.
- `CacheEntry` built with an explicit creation time: the code never sets
  the attribute then, and nothing in the core does so.
- The storage-element methods `get_SE`, `has_replica`, `get_closest_SE` and
  `get_replica` are not part of this model; they are
  `Catalog` functions.
- `argparse` parsing and `parser.add_argument`: a parsed command line is a
  map from attribute names to values, and argparse errors are `Exited`.
- `shlex.split`: its outcome is an argument of `RunFromCli`.
- Python 2 `unicode` strings and byte strings: strings are sequences of
  characters.
- Utils.IterRecursively: depth is bounded by `fuel`; `None` stands for a
  walk deeper than the fuel.
- Backends.Replicate: the contract states only the output kind; the
  behaviour is stated by the lemmas `ReplicateAlreadyPresent`,
  `ReplicateSourceErrors`, `ReplicateCopies`, `ReplicateDirectory`,
  `ReplicateNestedDirectoryRaises` and the pattern lemmas.
- Backends.Get: the contract states only the source-selection failure; the
  copy is stated by `GetCopies`.
- Backends.Replicate: a recursive call returns a lazy chain, so the lines of
  earlier children are printed before a later child raises. The model
  returns the error alone.
- `t2kdm.ls` yields the lines of `lfc-ls` as strings, so `entry.name` in
  `remote_iter_recursively` (t2kdm/utils.py:24-25) raises `AttributeError`
  on any non-empty directory. The model takes the child names from `Api`.

## Findings

| source | as written | input that shows it | evidently intended | confidence | as-written member | corrected member |
|---|---|---|---|---|---|---|
| t2kdm/storage.py:27-29 | `posixpath.join(basepath, remotepath)` discards the base path when the logical path is absolute, which every logical path is | `get_storage_path('/nd280/test')` on `RAL-LCG22-tape` gives `/nd280/test`, without the host the test at t2kdm/tests.py:110 expects | the base path followed by the logical path | high, not executed | Storage.StoragePathAsWrittenDropsHost | Storage.StoragePathContainsHost |
| t2kdm/backends.py:150-160 | a recursive child receives `_ok_code=` explicitly and again in `**kwargs`, since only `_iter` is popped | `replicate('/a', 'SE', recursive=True)` where `/a/b` is a directory with children: the child call `/a/b` makes for `/a/b/c` raises `TypeError` | the same keyword arguments at every depth, so errors are ignored all the way down | high, not executed | Backends.ReplicateNestedDirectoryRaises | Backends.ChildKeywordsStable |
