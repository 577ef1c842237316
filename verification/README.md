# Verified model of the honeypot's stateful core

The honeypot emulates a machine. This project models the parts of it that keep state or follow a
protocol, and proves what they promise. A module mostly stands for one source file: the
specification of each operation is a function from the old state to the new one; where the source
changes state step by step, a class or a method with loops is proved equal to that function; and the
results about whole runs are lemmas about the functions.

- **The virtual filesystem** (`FsTree`, `FsWalkers`, `FsAgreement`, `Filesystem`, `FsPaths`,
  `FsNesting`, `FsGraft`, `FsEffects`, `FsMoves`, `FsRuns`, `FsCopies`, `FsSpelling`, `Paths`,
  `ChangeDirectory`). Entries
  form a tree with links. Three separately written walkers read it and are proved to agree; the
  operations that change it have an exact effect, leave every other path alone, undo one another
  where they should, and keep sibling names distinct over every run. A position, the list of child
  indices from the root, plays the part of Python's object identity; removal is by value, as in
  Python. Exceptions are results. `budget` is what is left of Python's recursion limit.
- **The TFTP client** (`Tftp`, `TftpNetwork`), with a lock-step server and a network that loses,
  repeats and reorders packets, as in RFC 1350.
- **The rate limiter** (`RateLimiting`, `RateLimiterRuns`) against a plain sliding window.
- **Redirections**: the token parser with its printer (`RedirectionParser`, `RedirectionTokens`,
  `RedirectionRoundTrip`) and the descriptor table (`FdTable`, `FdTableRuns`).
- **Binary formats with their encoders**: TLS ClientHello (`TlsClientHello`) and the JA4 fingerprint
  (`Ja4`, `Ja4Text`), terminal logs (`TtyLog`), and the scp stream (`Scp`, `ScpRoundTrip`, `ScpArrival`), which
  feeds the virtual filesystem.
- **Reporting**: the AbuseIPDB log book (`AbuseIpdb`, `AbuseIpdbRuns`, `AbuseIpdbTally`) and the
  Discord queue (`Discord`, `DiscordRuns`).
- **`tail`** (`Tail`), reading a file backwards in blocks.
- **The session state of the middleware** (`SessionState`, `SessionTree`, `SessionEngine`,
  `SessionRuns`, `SessionPaths`): two tables that must tell the same tree under every sequence of commands.

`Sequences`, `Strings`, `Bytes`, `Decimal`, `Hex`, `Sorting` and `Files` hold the vocabulary.

Where the code does not do what its surroundings promise, the model follows the code and a lemma
says exactly when the promise holds:

- `max_keys` bounds the tracker only from 19 on (`MaxKeysHoldsExactlyFrom19`).
- A late block disarms the TFTP timer for good (`StallsExactlyFromThreeBlocks`).
- `rename` loses an entry whose new parent is missing (`RenameEffect`).
- `mkdir2` and `rename` can list a name twice when the path has empty pieces
  (`MkdirKeepsDistinctExactly`, `RenameKeepsDistinctExactly`, `DoubleSlashDuplicates`,
  `DoubleSlashRenames`).
- A copied descriptor counts file sizes from 0 (`SizeStaysRightExactly`, `CopiedDescriptorLosesSize`).
- `>>` to a file that has a size but no backing file of its own goes on counting from that size,
  though the new backing file is empty (`OwnRedirectionSizeExactly`).
- A clean-up of the log book can drop logins that still count (`HarmfulCleanupLosesReport`).
- A redirection without a descriptor takes a number before it for one (`PrintMergeParse`).
- A failed send with others waiting changes the order of messages (`InOrderExactly`).
- Beyond 16 nested links `_find` misses what `getfile` finds (`WalkersAgree`, `LinksInARow`), and
  where a name is listed twice they follow different entries (`FirstAgainstLast`, `TwiceTellsApart`).
- Paths resolve component by component, except where `~` is involved (`ResolvesStepwise`,
  `TildeIsStepwiseOnlyAtHome`, `TildeBelowIsStepwiseOnlyAtHome`, `TildeTwice`).
- `tail` with n = 0 returns lines, unless the file is empty (`Tail`).
- `_find` is documented to take link targets as absolute; `getfile` reads a relative target from the
  root as well, which is why the two agree.

`dafny verify dfyconfig.toml` checks the whole project.

## Model

| member | source | states |
|---|---|---|
| FsWalkers.FindEntry | cowrie-shell-source/honeyfs.py:35-65 | the loop of `_find`, with its recursion into links: the position, None or exception that the recursive definition gives, on any tree |
| FsWalkers.FindNeverLink | cowrie-shell-source/honeyfs.py:35-65 | on every tree, with any links and loops among them, `_find` answers within its depth cap, and what it finds is never a link |
| FsWalkers.FindIsGetFile | cowrie-shell-source/honeyfs.py:44-65 | on a tree with distinct sibling names and well-formed link targets, `_find` at depth d gives the position `getfile` gives with a recursion limit of 17 - d, and None where `getfile` returns None or raises |
| FsWalkers.DescendStep | cowrie-shell-source/fs.py:283-309 | where names are distinct, the inner loop over all siblings enters exactly the one entry of the wanted name, although it never breaks |
| FsAgreement.BudgetSuffices | cowrie-shell-source/fs.py:274-311 | a recursion limit that was enough for `getfile` stays enough, and a larger one changes no answer |
| FsAgreement.FirstAgainstLast | cowrie-shell-source/honeyfs.py:44-65 | on trees without links, with any duplicate names, `_find` leads along a well-formed path to the first and `getfile` to the last of the entries of each name |
| FsAgreement.FirstIsLastExactly | cowrie-shell-source/fs.py:288-309 | the first and the last entry of a name are the same one if and only if no two entries have it |
| FsNesting.NestingExists | cowrie-shell-source/fs.py:274-311 | on every orderly tree, whatever its links do, there is a table that gives for each link target how many links deep it goes and where it ends, or that it never ends, consistent with walking each target once, without recursion |
| FsNesting.GetFileNests | cowrie-shell-source/fs.py:274-311 | `getfile` answers what that walk comes to if its recursion limit exceeds the depth, and raises RecursionError if not |
| FsNesting.WalkersAgree | cowrie-shell-source/honeyfs.py:31-65 | for every well-formed path `_find` and `getfile` return the same entry, or both none, if and only if the path goes at most 16 links deep, or leads to no entry, or is too deep for `getfile` as well |
| FsNesting.DepthBound | cowrie-shell-source/honeyfs.py:31-65 | no path goes deeper than there are different link targets in the tree |
| FsNesting.FewTargetsAgree | cowrie-shell-source/honeyfs.py:31-65 | so where at most 16 different link targets occur, the two agree on every well-formed path |
| FsNesting.LinksInARow | cowrie-shell-source/honeyfs.py:31-65 | of k links in a row to a file `_find` finds the file if and only if k is at most 16, `getfile` if and only if its recursion limit exceeds k |
| FsNesting.TwiceTellsApart | cowrie-shell-source/honeyfs.py:44-65 | for `/n` on a tree without links the two agree if and only if the root does not list `n` twice |
| FsNesting.BrokenLinkRaises | cowrie-shell-source/fs.py:289-302 | a link without a target or with an empty one makes `getfile` raise TypeError or IndexError when followed, and is found when not; `get_path` raises AttributeError for the first |
| FsAgreement.GetPathMatches | cowrie-shell-source/fs.py:215-242 | `get_path` returns the contents of the very entry `getfile` finds, raises FileNotFound where `getfile` finds none, and raises where it raises |
| FsAgreement.GetFileAlong | cowrie-shell-source/fs.py:274-311 | on any tree with distinct sibling names, links anywhere, `getfile` is lookup name by name for every path that leads through no link; with `follow_symlinks=False` a link at the end of the path is found itself, not what it leads to |
| FsAgreement.GetPathAlong | cowrie-shell-source/fs.py:215-242 | so is `get_path`, for every path that leads through no link |
| FsAgreement.GetFileIsLocate | cowrie-shell-source/fs.py:274-311 | without links `getfile`, following or not, finds exactly the entry that looking up the names one by one finds, and raises TypeError exactly below the bytes of a file |
| FsAgreement.GetPathIsLocate | cowrie-shell-source/fs.py:215-242 | without links `get_path` returns the list at the looked-up place and raises FileNotFound exactly where there is none |
| Filesystem.HoneyPotFilesystem.WalkFile | cowrie-shell-source/fs.py:274-311 | the loops of `getfile`, links followed by recursion, give the entry, None or exception that the recursive definition gives, on any tree |
| Filesystem.HoneyPotFilesystem.WalkList | cowrie-shell-source/fs.py:288-309 | the inner loop over the siblings: the last entry of the name decides, a broken link ends the search |
| Filesystem.HoneyPotFilesystem.WalkPath | cowrie-shell-source/fs.py:215-242 | the loop of `get_path`: its position or exception, on any tree, links included |
| Filesystem.HoneyPotFilesystem.MakeFile | cowrie-shell-source/fs.py:341-365 | `mkfile`: the new tree, counter and result or exception in each case (quota, protected directory, missing parent, parent without a list), for any path |
| Filesystem.HoneyPotFilesystem.MakeDir | cowrie-shell-source/fs.py:367-389 | `mkdir`: the same, with its mapping of errors; the parent comes from the stripped path, the name from the path as given |
| Filesystem.HoneyPotFilesystem.MakeDir2 | cowrie-shell-source/fs.py:517-524 | `mkdir2`: EEXIST where `getfile` finds something, else `mkdir` |
| Filesystem.HoneyPotFilesystem.RemoveDir | cowrie-shell-source/fs.py:526-542 | `rmdir`: its five ways to fail in their order, and the removal of the first entry of the name |
| Filesystem.HoneyPotFilesystem.RemoveFile | cowrie-shell-source/fs.py:565-569 | `remove`: removal by value from the list of the path's `dirname`, with its exceptions |
| Filesystem.HoneyPotFilesystem.RenameEntry | cowrie-shell-source/fs.py:582-592 | `rename`: the state after each way it can end, including the entry being gone when the new parent turns out missing |
| Filesystem.HoneyPotFilesystem.SetSize | cowrie-shell-source/fs.py:627-633 | `update_size` sets the size of a file and leaves other kinds and missing paths alone |
| Filesystem.HoneyPotFilesystem.TestDir | cowrie-shell-source/fs.py:421-436 | `isdir`, which is False where `getfile` raises |
| Filesystem.HoneyPotFilesystem.CopyEntry | cowrie-source/commands/fs.py:469-486 | one turn of the loop of `cp`: skip, exception, or the copy put in place of an entry of that name |
| Filesystem.HoneyPotFilesystem.CopyFiles | cowrie-source/commands/fs.py:436-486 | `cp` after option parsing: which sources end up where, when it refuses, and which exception stops it half way |
| FsPaths.DirnameNames | cowrie-shell-source/fs.py:354-360 | for every path, the names `get_path` would follow are those of `os.path.dirname`, then the `basename` unless that is empty |
| FsPaths.ProperSpells | cowrie-shell-source/fs.py:280-280 | a path without empty pieces and final slash leads `getfile` exactly to its `basename` in its `dirname` |
| FsPaths.CanonicalIsProper | cowrie-shell-source/fs.py:184-184 | every path `resolve_path` returns, except the root, is of that kind |
| FsGraft.KidsGraft | cowrie-shell-source/fs.py:359-363 | changing the list of one directory in one name changes what that path and the paths below it show, keeps the attributes of the directories above, and no other path shows anything else |
| FsEffects.MkfileEffect | cowrie-shell-source/fs.py:341-365 | on trees without links `mkfile` succeeds if and only if fewer than 10001 entries were made, the directory does not begin with `/sys`, `/proc` or `/dev/pts`, and it holds a list; then exactly the file's place shows an entry with the given owner, size, mode and time; otherwise nothing changes, with the exception of each case |
| FsEffects.Mkdir2Effect | cowrie-shell-source/fs.py:517-524 | the same for `mkdir2`, which needs the place to be empty (else EEXIST), and appends an empty directory of mode 40755 that belongs to root |
| FsEffects.RemoveEffect | cowrie-shell-source/fs.py:565-569 | on a path that leads through no link, links elsewhere or at its end allowed, `remove` succeeds if and only if the path is there, else ENOENT (TypeError below the bytes of a file); although it removes by value, the tree loses exactly the entry looked up, a link and not its target, all others keeping their order |
| FsEffects.RmdirEffect | cowrie-shell-source/fs.py:526-542 | on such a path `rmdir` fails with EEXIST where nothing is, ENOTDIR on anything but a directory, a link to one included, ENOTEMPTY on a full one, and else takes out just that directory; a slash at the end makes no difference |
| FsEffects.MkdirThenRmdir | cowrie-shell-source/fs.py:517-542 | `rmdir` after a successful `mkdir2` restores the tree exactly, order included |
| FsEffects.MkfileThenRemove | cowrie-shell-source/fs.py:341-365 | `remove` after a successful `mkfile` of a fresh name restores the tree exactly |
| FsMoves.RenameEffect | cowrie-shell-source/fs.py:582-592 | `rename` moves the entry with all below it if and only if the old path is there, the new one is not, and the new parent holds a list outside the entry; when only the last fails, the entry is taken out and lost; in all cases every other path is unchanged |
| FsMoves.RenameKeepsPlain | cowrie-shell-source/fs.py:582-592 | names stay distinct however `rename` ends |
| FsMoves.SizeEffect | cowrie-shell-source/fs.py:627-633 | `update_size` changes the size of one file and no other path, with or without a slash at the end of the path |
| FsMoves.CopyEffect | cowrie-source/commands/fs.py:469-486 | a copy succeeds exactly if the source is there, is no directory unless recursive, and the target directory holds a list; its place then shows the source's whole subtree under the new name, no other path changes |
| FsRuns.CopyCommandKeepsPlain | cowrie-source/commands/fs.py:421-486 | the `cp` command with any arguments keeps sibling names distinct |
| FsCopies.CopyToName | cowrie-source/commands/fs.py:436-486 | `cp` of one source to a place that is no directory shows the source's whole entry there, under the name the destination ends with, and every other path shows what it did |
| FsCopies.TargetName | cowrie-source/commands/fs.py:480-482 | that name is the last name of the place the destination leads to, if it is a plain name |
| FsCopies.CopyIntoDirectory | cowrie-source/commands/fs.py:436-486 | `cp` into a directory shows every source that is there (no directory unless recursive) under its own last name, the last of equal names winning, with all that is in it; every other path shows what it did |
| FsCopies.CopyOneMore | cowrie-source/commands/fs.py:464-486 | whatever the sources do to one another, each is copied from the tree that the ones before it left |
| FsCopies.CopyRefuses | cowrie-source/commands/fs.py:439-462 | several sources and no directory, a final slash and nothing there, or no parent: `cp` changes nothing |
| FsRuns.RunKeepsPlain | cowrie-shell-source/fs.py:341-633 | over every run of `mkfile`, `mkdir2`, `rmdir`, `remove`, `rename`, `update_size` and `cp` (only the paths of `mkdir2` and `rename` need be without empty pieces) no directory lists a name twice, no link appears, and at most 10001 entries are made |
| FsRuns.RunFrame | cowrie-shell-source/fs.py:341-633 | a path apart from every place a run touches shows at the end what it showed at the start |
| FsSpelling.MkdirKeepsDistinctExactly | cowrie-shell-source/fs.py:380-388 | for any path, a successful `mkdir2` keeps names distinct if and only if the directory it writes to did not list the path's `basename` |
| FsSpelling.RenameKeepsDistinctExactly | cowrie-shell-source/fs.py:586-592 | the same for `rename` and any new path, the entry's own old place aside |
| FsSpelling.DoubleSlashDuplicates | cowrie-shell-source/fs.py:521-524 | in every tree `mkdir2` of `d//n` succeeds and lists an existing `n` a second time |
| FsSpelling.DoubleSlashRenames | cowrie-shell-source/fs.py:582-592 | in every tree so does `rename` of any other entry to `d//n` |
| Paths.ResolvePath | cowrie-shell-source/fs.py:153-184 | the loop of `resolve_path` computes the fold of its pieces over the starting directory; IndexError on an empty path |
| Paths.ResolvesToCanonical | cowrie-shell-source/fs.py:153-184 | from a canonical directory every non-empty path resolves to a canonical one |
| Paths.CanonicalIsFixed | cowrie-shell-source/fs.py:153-184 | a canonical path resolves to itself, from anywhere |
| Paths.ResolvesStepwise | cowrie-shell-source/fs.py:153-184 | resolving `a/b` is resolving `b` from where `a` leads |
| Paths.NameResolves | cowrie-shell-source/fs.py:172-184 | a plain name leads into the directory and `..` to its parent |
| Paths.TildeIsStepwiseOnlyAtHome | cowrie-shell-source/fs.py:159-163 | for `a` = `~` and any relative `b` the two ways agree if and only if the home directory and the entry `~` of the current one have the same directory as many levels up as `b` goes |
| Paths.TildeBelowIsStepwiseOnlyAtHome | cowrie-shell-source/fs.py:159-163 | for `b` = `~/rest` with any rest they agree if and only if that holds of the home directory and the entry `~` of the place `a` leads to |
| Paths.TildeTwice | cowrie-shell-source/fs.py:159-163 | for both at once, `~/~/rest` is `~/rest` if and only if the rest goes up past the root |
| Paths.WalkNets | cowrie-shell-source/fs.py:172-184 | walking any pieces is going up some levels and then down along some names, both determined by the pieces alone |
| ChangeDirectory.Protocol.ChangeDir | cowrie-source/commands/fs.py:278-298 | `cd`: the new working directory for any arguments, unchanged where it complains |
| ChangeDirectory.CwdStaysCanonical | cowrie-source/commands/fs.py:278-298 | the working directory is canonical after every run of `cd` commands, whatever happens to the tree in between |
| ChangeDirectory.CdName | cowrie-source/commands/fs.py:285-298 | `cd` to a name, on any tree, moves there if and only if `getfile` finds a directory there, which without links is an entry of that name |
| ChangeDirectory.CdHome | cowrie-source/commands/fs.py:278-298 | `cd` without arguments, or to `~`, moves to the home directory if and only if that is a directory |
| ChangeDirectory.CdDash | cowrie-source/commands/fs.py:285-298 | `cd -` goes nowhere |
| ChangeDirectory.CdAndBack | cowrie-source/commands/fs.py:278-298 | `cd n` and then `cd ..` leads back, links or not, even on another tree, as long as both places are directories |
| Tftp.TftpClient.SendRRQ | cowrie-source/commands/tftp.py:83-91 | sends the request and arms the timer |
| Tftp.TftpClient.SendACK | cowrie-source/commands/tftp.py:93-105 | sends the acknowledgement and arms the timer |
| Tftp.TftpClient.DatagramReceived | cowrie-source/commands/tftp.py:107-130 | the client's whole new state for any datagram: short ones ignored, otherwise timer off, retries reset, then by opcode |
| Tftp.TftpClient.HandleDATA | cowrie-source/commands/tftp.py:132-165 | a packet under four bytes ignored; next block written and acknowledged, a short one ends the transfer; the current block is acknowledged again; any other changes nothing |
| Tftp.TftpClient.HandleERROR | cowrie-source/commands/tftp.py:167-181 | an error of at least five bytes fires the errback |
| Tftp.TftpClient.HandleTimeout | cowrie-source/commands/tftp.py:190-204 | retransmits the request or the last acknowledgement, or gives up at the third timeout in a row |
| Tftp.DataArmsExactlyCurrentBlocks | cowrie-source/commands/tftp.py:119-165 | after a DATA packet the client is finished or has its timer armed if and only if the block was the expected one or the one before |
| Tftp.OnTheWire | cowrie-source/commands/tftp.py:83-105 | the bytes of a request and of an acknowledgement (RFC 1350 section 5) |
| TftpNetwork.WireNumber | cowrie-source/commands/tftp.py:142-162 | a block the client takes is the very next one of the file, and one it acknowledges again is the current one: 16-bit numbers never confuse two blocks |
| TftpNetwork.RunKeepsInv | cowrie-source/commands/tftp.py:107-204 | every event (any packet ever sent arriving now, late, twice or never, timer, server error) keeps client, server and network in step |
| TftpNetwork.Safety | cowrie-source/commands/tftp.py:107-204 | in every reachable state the artifact is the first `current_block` 512-byte blocks and `bytes_received` its length; the deferred fires at most once, leaving no timer; success means the whole file, so never for 65535*512 bytes or more (RFC 1350 sections 2, 5 and 6) |
| TftpNetwork.BlocksAreAcknowledged | cowrie-source/commands/tftp.py:132-165 | in every reachable state the arrival of the next block or of the current one is answered by the acknowledgement of that block, any other block by nothing; the artifact grows by exactly the next block |
| TftpNetwork.TimeoutRetransmits | cowrie-source/commands/tftp.py:190-204 | in every reachable state an expiring timer sends the request again if no block has come, else the acknowledgement of the current block, and is armed again; at the third in a row the client gives up and sends nothing |
| TftpNetwork.RetriesCountSilence | cowrie-source/commands/tftp.py:107-204 | `retry_count` is the number of timeouts since the last packet the client took in |
| TftpNetwork.RecoversFromLoss | cowrie-source/commands/tftp.py:190-204 | from every reachable state with the timer pending, a retry left and the server waiting for the client, a file below the limit can still be downloaded although everything sent so far is lost |
| TftpNetwork.CanSucceedExactlyBelowLimit | cowrie-source/commands/tftp.py:132-165 | some run downloads the file if and only if it is shorter than 65535 blocks of 512 bytes |
| TftpNetwork.StallsExactlyFromThreeBlocks | cowrie-source/commands/tftp.py:119-165 | some run leaves the client waiting with no timer if and only if the file takes three blocks or more |
| RateLimiting.RateLimiter.Check | cowrie-source/core/rate_limiter.py:43-80 | `check`: answer, tracker and time of the last cleanup, exactly |
| RateLimiting.RateLimiter.Sweep | cowrie-source/core/rate_limiter.py:59-62 | the periodic cleanup happens exactly when more than the window has passed since the last one |
| RateLimiting.RateLimiter.Shrink | cowrie-source/core/rate_limiter.py:70-72 | above `max_keys` the oldest keys go, otherwise nothing changes |
| RateLimiting.RateLimiter.Record | cowrie-source/core/rate_limiter.py:74-80 | the rate test and the recording, the defaultdict re-adding an evicted key |
| RateLimiting.RateLimiter.CleanupAll | cowrie-source/core/rate_limiter.py:82-100 | every key pruned, those left empty deleted, the order of the rest kept |
| RateLimiting.RateLimiter.RemoveOldestKeys | cowrie-source/core/rate_limiter.py:102-120 | the evicted keys are the first tenth, at least one, of the keys in the order of latest activity |
| RateLimiting.RateLimiter.LatestActivity | cowrie-source/core/rate_limiter.py:110-113 | maps each key to its latest request, or 0 |
| RateLimiting.ByActivityOrdered | cowrie-source/core/rate_limiter.py:116-116 | the sorted keys are ordered by activity and are the same keys |
| RateLimiterRuns.RefinesSlidingWindow | cowrie-source/core/rate_limiter.py:43-80 | with a clock that never goes back, a call for a key that was never evicted is granted if and only if fewer than `max_requests` earlier grants are younger than the window |
| RateLimiterRuns.WindowNeverOverfull | cowrie-source/core/rate_limiter.py:43-80 | no window of such a key ever holds more than `max_requests` grants |
| RateLimiterRuns.RefusalIsJustified | cowrie-source/core/rate_limiter.py:74-76 | any clock, any eviction: a refusal is backed by at least `max_requests` real grants inside the window |
| RateLimiterRuns.FewKeysNeverEvicted | cowrie-source/core/rate_limiter.py:70-72 | runs over at most `max_keys` keys never evict one |
| RateLimiterRuns.SameAnswersAsWindow | cowrie-source/core/rate_limiter.py:43-100 | over at most `max_keys` keys the whole answer sequence is that of the sliding window: cache and cleanups cannot be observed |
| RateLimiterRuns.DisabledGrants | cowrie-source/core/rate_limiter.py:43-58 | switched off, the limiter grants everything and remembers nothing |
| RateLimiterRuns.VictimsCount | cowrie-source/core/rate_limiter.py:117-120 | an eviction removes a tenth of the keys, at least one |
| RateLimiterRuns.VictimsAreOldest | cowrie-source/core/rate_limiter.py:110-120 | no surviving key was active before an evicted one |
| RateLimiterRuns.TiesGoByAge | cowrie-source/core/rate_limiter.py:110-120 | of keys whose latest requests are equally old, those tracked longer are evicted first |
| RateLimiterRuns.SweepForgets | cowrie-source/core/rate_limiter.py:59-62 | a call more than a window after the last cleanup forgets every other key whose requests are all out of the window, and prunes the rest; other calls touch no other key, evictions aside |
| RateLimiterRuns.TrackedKeysBounded | cowrie-source/core/rate_limiter.py:70-80 | no run tracks more than max(`max_keys`, 19) keys |
| RateLimiterRuns.MaxKeysHoldsExactlyFrom19 | cowrie-source/core/rate_limiter.py:70-80 | `max_keys` bounds every run if and only if it is at least 19: below that the evicted current key is tracked again |
| RedirectionParser.MergeRedirectionTokens | cowrie-shell-source/parser.py:23-62 | the loop returns the left-to-right gluing of operator tokens |
| RedirectionParser.ParseRedirections | cowrie-shell-source/parser.py:64-100 | the loop returns the remaining words and the operations, in order |
| RedirectionParser.ApplyToken | cowrie-shell-source/parser.py:102-176 | one token: the words and operations it adds and how many tokens it uses |
| RedirectionParser.MergePreservesText | cowrie-shell-source/parser.py:23-62 | merging loses, adds and reorders no character of the concatenated tokens |
| RedirectionParser.MergeIdempotent | cowrie-shell-source/parser.py:23-62 | merging twice is merging once, for all tokens |
| RedirectionTokens.MergeGlues | cowrie-shell-source/parser.py:23-62 | exactly `n >& w`, `n > & w`, `n > &`, `n >` and `> &` (also with `>>`) are glued, for a number n and a w that does not separate commands |
| RedirectionTokens.OnlyShapesRead | cowrie-shell-source/parser.py:102-110 | on one line exactly the texts of digits, perhaps none, `>`, `>>`, `>&` or `<`, and a rest are redirections |
| RedirectionTokens.TokenParses | cowrie-shell-source/parser.py:112-176 | what each of them says, with the target in the token or behind it: descriptor, target, appending or not, copy, close |
| RedirectionTokens.FinalNewline | cowrie-shell-source/parser.py:102-110 | a newline at the very end of a token is not part of its target |
| RedirectionTokens.OthersStay | cowrie-shell-source/parser.py:64-110 | every other token stays a word |
| RedirectionRoundTrip.PrintMergeParse | cowrie-shell-source/parser.py:23-176 | an interleaving of words and redirections, printed as tokens, merged and parsed, gives back exactly the words and the operations, in order, if and only if no redirection without a descriptor directly follows something that ends in a number |
| RedirectionRoundTrip.NumberBeforeOperatorIsLost | cowrie-shell-source/parser.py:40-62 | anywhere on a line a number word directly before a redirection without descriptor is read as its descriptor, and the word is lost |
| FdTable.PipeProtocol.constructor | cowrie-shell-source/pipe.py:72-125 | the state after set-up is the left-to-right fold of the redirections, then the input read from the last `<` |
| FdTable.PipeProtocol.PrepareStdin | cowrie-shell-source/pipe.py:127-141 | the file's bytes become the input, a missing or protected file is an error, other exceptions escape |
| FdTable.PipeProtocol.ApplyRedirection | cowrie-shell-source/pipe.py:72-125 | one redirection: target table, counters, files and backings |
| FdTable.PipeProtocol.PrepareOutputFile | cowrie-shell-source/pipe.py:143-173 | opening for `>` or `>>`: reuse, truncation (which can fail) or a new backing, and where the size counter starts |
| FdTable.PipeProtocol.CreateRedirectTarget | cowrie-shell-source/pipe.py:185-218 | a new virtual file and its backing, or none where the file cannot be made |
| FdTable.PipeProtocol.WriteToFd | cowrie-shell-source/pipe.py:314-351 | one write: the sink of the descriptor grows by exactly the data, and a file's recorded size becomes the counter's new value |
| FdTableRuns.DupIsByValue | cowrie-shell-source/pipe.py:72-125 | a duplicated descriptor keeps the target its source had at that moment, whatever happens to the source later |
| FdTableRuns.UnredirectedSinks | cowrie-shell-source/pipe.py:72-82 | without a redirection of its own, standard output goes to the capture, else the next command, else the terminal, and standard error to the terminal |
| FdTableRuns.DevNullDiscards | cowrie-shell-source/pipe.py:89-97 | `/dev/null` takes output and changes no file |
| FdTableRuns.OwnRedirectionContent | cowrie-shell-source/pipe.py:143-243 | the file of a descriptor's own redirection holds after any output its old bytes, if opened with `>>` and with a backing of its own, and then exactly the output sent there |
| FdTableRuns.CopyOfNothing | cowrie-shell-source/pipe.py:110-122 | copying a descriptor that is not open does nothing |
| FdTableRuns.InputTakesNoOutput | cowrie-shell-source/pipe.py:102-108 | a descriptor redirected by `<` takes no output |
| FdTableRuns.FailureIsNoted | cowrie-shell-source/pipe.py:185-213 | a redirection to a file that cannot be made sets the error flag for good and leaves its descriptor as it was |
| FdTableRuns.HoneyfsIsReadOnly | cowrie-shell-source/pipe.py:175-183 | no redirection and no output ever changes a file of the honeyfs |
| FdTableRuns.EverySinkGetsItsOutput | cowrie-shell-source/pipe.py:289-351 | after any writes each sink holds what it held and then exactly the data of the descriptors that lead to it, in order: every byte reaches one sink |
| FdTableRuns.SizeStaysRightExactly | cowrie-shell-source/pipe.py:333-351 | with one writing descriptor, after any writes `A_SIZE` equals the length of the backing file if and only if its counter started at that length or, if it was not used, the size was right before |
| FdTableRuns.OwnRedirectionSizeExactly | cowrie-shell-source/pipe.py:143-173 | a descriptor redirected by its own `>` or `>>`, nothing later touching it or its file and the other descriptor writing elsewhere: after any output `A_SIZE` equals the length of the backing file always for `>`; for `>>` to a backing of its own if and only if it did before; for `>>` to a file without one (or with one in the honeyfs) if and only if nothing is written or its size was 0 |
| FdTableRuns.Session | cowrie-shell-source/pipe.py:72-351 | over any sequence of commands with any redirections and output, backing files written in place exist and none is shared, so each command finds what the results about one command ask for |
| FdTableRuns.SetupIsReady | cowrie-shell-source/pipe.py:72-125 | after set-up every file in the table has its backing file |
| FdTableRuns.InputIsReadLast | cowrie-shell-source/pipe.py:104-141 | the file of the last `<` is read when all redirections are done; where it cannot be read the input is unchanged and the failure noted |
| FdTableRuns.EmptyInputIgnored | cowrie-shell-source/pipe.py:124-125 | an empty name after `<` is no input file |
| FdTableRuns.ReadsOwnOutputAsEmpty | cowrie-shell-source/pipe.py:82-85 | a file that the command's own output redirections truncate or give a new backing is read as empty, whichever comes first on the line |
| FdTableRuns.CopiedDescriptorLosesSize | cowrie-shell-source/pipe.py:333-351 | after `>> f 2>&1 > g`, for `/dev/null` and any other `g` than `f` that can be opened, a write to standard error makes the size of `f` wrong if and only if its backing file was not empty |
| TlsClientHello.ParseTlsClientHello | cowrie-source/core/fingerprint.py:37-162 | on every byte string the loops end and return what the recursive reading of the fields gives, or None |
| TlsClientHello.ReadWords | cowrie-source/core/fingerprint.py:37-162 | the loop over 16-bit values with its bounds |
| TlsClientHello.ReadExtensions | cowrie-source/core/fingerprint.py:37-162 | the loop over the extensions: types, SNI flag, first ALPN name, signature algorithms |
| TlsClientHello.ReadSignatureAlgorithms | cowrie-source/core/fingerprint.py:37-162 | the loop over the signature algorithms |
| TlsClientHello.RoundTrip | cowrie-source/core/fingerprint.py:37-162 | any hello (RFC 8446 section 4.1.2), encoded as one record with the registered numbers of the three extensions and parsed, gives back version, ciphers, extension types in order, the SNI flag, and the first protocol (RFC 7301 section 3.1) and the signature algorithms of the last extensions that carry any |
| TlsClientHello.AsciiKept | cowrie-source/core/fingerprint.py:37-162 | an ASCII protocol name is read back unchanged |
| Ja4Text.Ja4Reads | cowrie-source/core/fingerprint.py:239-302 | what one fingerprint says, character by character: `q` or `t`, the version code, `d` or `i`, two decimal counts up to 99 of the values outside GREASE, ciphers first, the ends of the protocol name, and the hashes of the ascending four-digit hexadecimal lists, signature algorithms in the order sent |
| Ja4Text.VersionText | cowrie-source/vendor/ja4/common.py:14-19 | each known version has its code and no other has it, `00` for all others |
| Ja4.AlikeHelloSameJa4 | cowrie-source/core/fingerprint.py:239-302 | hellos that differ in order and GREASE only have the same fingerprint, whatever the hash |
| Ja4.OrderIgnored | cowrie-source/core/fingerprint.py:272-302 | permuting ciphers and extensions changes nothing |
| Ja4.GreaseIgnored | cowrie-source/core/fingerprint.py:272-302 | nor do GREASE values (RFC 8701) anywhere in the two lists |
| Ja4.GreaseInserted | cowrie-source/core/fingerprint.py:272-302 | inserting a GREASE value anywhere leaves the list alike |
| Ja4.SameJa4ExactlyWhenAlike | cowrie-source/core/fingerprint.py:239-302 | if the hash separates the strings hashed, two fingerprints are equal if and only if the hellos are alike: nothing else is forgotten |
| AbuseIpdb.LogBook.TolerantObserver | cowrie-source/output/abuseipdb.py:143-170 | one login: the book and the reports afterwards, in every case |
| AbuseIpdb.LogBook.CleanExpiredTimestamps | cowrie-source/output/abuseipdb.py:212-222 | drops the stamps older than the window from the front |
| AbuseIpdb.LogBook.ReportIpMultiple | cowrie-source/output/abuseipdb.py:349-353 | records the report and turns the entry into its time |
| AbuseIpdb.LogBook.Cleanup | cowrie-source/output/abuseipdb.py:258-287 | the clean-up over all entries |
| AbuseIpdb.LogBook.FindAndDeleteEmptyEntries | cowrie-source/output/abuseipdb.py:224-235 | deletes the entries left empty |
| AbuseIpdbRuns.ReportsAreEarnedAndSpaced | cowrie-source/output/abuseipdb.py:143-170 | on a clock that never goes back, with any clean-ups, a report follows `tolerance_attempts` logins of that address within the window, and comes more than `rereport_after` after the one before |
| AbuseIpdbRuns.PushedKeepsLatest | cowrie-source/output/abuseipdb.py:143-170 | an address's deque never outgrows its size: it keeps the latest logins |
| AbuseIpdbRuns.CleanupKeepsExactly | cowrie-source/output/abuseipdb.py:237-287 | a clean-up keeps an address if and only if its report is not old enough to be repeated, or it has at least two logins, the second not that old, and one inside the window |
| AbuseIpdbTally.ReportsMatchTally | cowrie-source/output/abuseipdb.py:143-170 | as long as no clean-up drops a login inside the window, an address is reported at exactly the logins where a plain tally says so |
| AbuseIpdbTally.HarmfulCleanupLosesReport | cowrie-source/output/abuseipdb.py:237-287 | after any run whose clean-ups did no harm, the next clean-up leaves every report of every later burst of logins as the tally has it if and only if it drops no login inside the window |
| AbuseIpdbTally.SingleLoginIsDropped | cowrie-source/output/abuseipdb.py:258-287 | a run that does harm: one login, and any clean-up while it is inside the window |
| Discord.Output.WriteEvent | cowrie-source/output/discord.py:77-82 | `write`: ignored after stop; else the entry joins the back of the queue, and the front is sent if nothing is in flight |
| Discord.Output.RunQueue | cowrie-source/output/discord.py:88-96 | `_process_queue`: one send at a time, none after stop |
| Discord.Output.OnTimer | cowrie-source/output/discord.py:98-99 | a `callLater` expires: one timer less, and the queue is looked at again |
| Discord.Output.OnResult | cowrie-source/output/discord.py:129-148 | `_after_result`: front of the queue on 429, back of it on 5xx with attempts left, else finished; idle again with a timer set |
| Discord.Output.OnError | cowrie-source/output/discord.py:150-159 | `_after_error`: to the back of the queue with one attempt more, or finished when none are left; idle again with a timer set |
| DiscordRuns.RunKeepsInvariants | cowrie-source/output/discord.py:77-159 | in every reachable state before `stop` each written entry is exactly once in queue, flight or finished; at most one is in flight; a waiting queue with nothing in flight has a timer; no entry is sent more than `max_retries` + 1 times, 429 answers aside |
| DiscordRuns.StepKeepsOrderExactly | cowrie-source/output/discord.py:129-159 | an event keeps the entries in the order written if and only if it does not put an entry that is tried again (after a 5xx answer or a failed send, with attempts left) behind others that wait |
| DiscordRuns.InOrderExactly | cowrie-source/output/discord.py:77-159 | a run is in order at every moment if and only if no event of it does that |
| DiscordRuns.FinishInOrder | cowrie-source/output/discord.py:129-159 | in such runs entries finish in the order written |
| DiscordRuns.OrderlyRun | cowrie-source/output/discord.py:129-159 | in particular, without 5xx answers and failed sends entries finish in the order written |
| DiscordRuns.ServerErrorReorders | cowrie-source/output/discord.py:138-143 | a run that reorders: one 5xx answer while a second entry waits lets that one finish first |
| DiscordRuns.CanAlwaysDrain | cowrie-source/output/discord.py:88-159 | from every reachable state the pending timer and successful answers alone empty the queue |
| Scp.Command.Parse | cowrie-source/commands/scp.py:130-185 | `parse_scp_data`: the files saved, the filesystem and the rest of the data, or the exception, for any bytes |
| Scp.Command.Save | cowrie-source/commands/scp.py:96-128 | `save_file`: the content kept and the entry's backing and owner noted |
| Scp.Command.EofReceived | cowrie-source/commands/scp.py:201-202 | the draining loop, which ends on all input |
| Scp.ParseShrinks | cowrie-source/commands/scp.py:130-185 | each round leaves strictly less data |
| ScpRoundTrip.HeaderReadsBack | cowrie-source/commands/scp.py:142-145 | the header line written for a file is recognised, and its mode, size and name are the file's |
| ScpRoundTrip.HeaderExactly | cowrie-source/commands/scp.py:142-145 | a line is a header if and only if it is `C0`, three digits, a size and a name without white space, between single blanks |
| ScpRoundTrip.ParseFrame | cowrie-source/commands/scp.py:130-185 | parsing a stream takes in exactly its first file and leaves exactly the rest |
| ScpRoundTrip.LongSizeAborts | cowrie-source/commands/scp.py:142-150 | a size of more than 4300 digits ends the parsing with ValueError |
| ScpRoundTrip.StreamArrives | cowrie-source/commands/scp.py:201-202 | draining the stream of any list of files takes in those files, in order, each with its name, permissions, size and bytes, up to the first refused one |
| ScpArrival.AcceptedExactly | cowrie-source/commands/scp.py:153-185 | below the quota a file is taken if and only if the directory its name leads to is there and not protected; otherwise nothing changes, and it is refused with a message if the directory is protected or missing |
| ScpArrival.UploadsArrive | cowrie-source/commands/scp.py:130-202 | files to any places, in any directories, that are there and unprotected at the start and that no earlier file of the stream takes away: all are saved, once each, in order, with exactly their bytes; below the quota every place shows the last file sent there, the directories on the way keep their attributes, and every other path shows what it did |
| ScpArrival.MadeMeans | cowrie-source/commands/scp.py:96-128 | the entry of an uploaded file: owner, size, permissions, time, and the stored content below 25000000 bytes |
| ScpArrival.UploadsInto | cowrie-source/commands/scp.py:130-202 | with plain names into one directory each name shows the last file sent under it, and the directory's other names what they did |
| ScpArrival.LandsInCwd | cowrie-source/commands/scp.py:153-158 | without an output directory plain names lie in the working directory |
| ScpArrival.LandsInAbsolute | cowrie-source/commands/scp.py:153-158 | with an absolute output directory they lie there |
| ScpArrival.LandsInResolved | cowrie-source/commands/scp.py:153-158 | with any output directory but `~`, relative or not, with or without a final slash, they lie where it leads to itself |
| ScpArrival.AbsoluteNameLands | cowrie-source/commands/scp.py:153-158 | a name that is an absolute path leads there, whatever the output directory |
| ScpArrival.LandsInHome | cowrie-source/commands/scp.py:153-158 | with the output directory `~` they lie in the home directory |
| Tail.Tail | cowrie-source/core/utils.py:53-69 | for every content: the last n lines if n >= 1, nothing if n < 0; for n = 0 nothing only if the file is empty, since the slice starts at -0 |
| Tail.LinesPartition | cowrie-source/core/utils.py:68-69 | the lines are the content cut after each newline, and nothing else |
| Tail.SuffixSuffices | cowrie-source/core/utils.py:60-69 | a suffix with more than n newlines ends in the same n lines as the whole file |
| TtyLog.LogFile.Append | cowrie-source/core/ttylog.py:21-60 | `ttylog_open`, `ttylog_write`, `ttylog_close`: the record appended, or the struct error for a field that does not fit |
| TtyLog.GatherInput | cowrie-source/core/ttylog.py:70-93 | the reading loop gathers what the recursive reading of the records gives, on any bytes |
| TtyLog.RoundTrip | cowrie-source/core/ttylog.py:21-93 | from the log of any honest calls the reader gathers exactly the data of the writes whose direction is not 2, in order |
| TtyLog.RecordBytes | cowrie-source/core/ttylog.py:21-60 | the bytes of each record: operation 1, 3 or 2, terminal 0, length, direction, time, data |
| TtyLog.LowByteFirst | cowrie-source/core/ttylog.py:21-60 | each number in four bytes, the low one first |
| TtyLog.AnyRecord | cowrie-source/core/ttylog.py:70-93 | a record of any operation counts as input unless it is operation 3 in direction 2 |
| TtyLog.GatheredGrows | cowrie-source/core/ttylog.py:63-93 | on any bytes, appending to a log never changes the input gathered before |
| SessionEngine.StateEngine.RemoveSubtree | middleware/src/state_grounded/state_engine.py:590-600 | `_remove_subtree` on any tables: the loop over the children in any order, with what is left when it meets a missing node or the recursion limit |
| SessionEngine.StateEngine.MakeDir | middleware/src/state_grounded/state_engine.py:234-262 | `mkdir`: its checks in their order, and both tables |
| SessionEngine.StateEngine.ChangeDir | middleware/src/state_grounded/state_engine.py:184-202 | `cd`: the directory, PWD and exit code |
| SessionEngine.StateEngine.RemoveDir | middleware/src/state_grounded/state_engine.py:346-372 | `rmdir`: its refusals in their order (missing, no directory, root or a place above the working directory, not empty), else the removal |
| SessionEngine.StateEngine.RemoveAny | middleware/src/state_grounded/state_engine.py:374-420 | `rm` with its flags: bad options first, `-f` on a missing path succeeds, the root and places above the working directory are refused, directories need `-r`; else the whole subtree goes |
| SessionTree.AncestorIsPrefix | middleware/src/state_grounded/state_engine.py:602-607 | the prefix test on path texts finds exactly the ancestors: `/ab` is not below `/a` |
| SessionTree.TextSplits | middleware/src/state_grounded/state_engine.py:610-618 | `_split` and `_join` on texts are taking off and putting on the last name |
| SessionPaths.RelativeResolves | middleware/src/state_grounded/state_engine.py:553-558 | a relative path is walked from the working directory |
| SessionPaths.NameLeads | middleware/src/state_grounded/state_engine.py:553-558 | a plain name leads into the working directory, `..` to its parent, `.` to itself |
| SessionPaths.TextLeads | middleware/src/state_grounded/state_engine.py:553-558 | the text of a place leads to it, from anywhere |
| SessionPaths.HomeLeads | middleware/src/state_grounded/state_engine.py:553-556 | `~` is HOME and `~/n` is `n` below it |
| SessionPaths.StepwiseLeads | middleware/src/state_grounded/state_engine.py:553-558 | `p/n` leads where `n` leads from the place `p`, unless `p` is one or two slashes or a `~` changes its meaning |
| SessionPaths.MkdirHere | middleware/src/state_grounded/state_engine.py:234-262 | `mkdir n` makes the directory `n` in the working directory, listed there, if and only if nothing of that name is there, and changes nothing else |
| SessionPaths.CdHere | middleware/src/state_grounded/state_engine.py:184-202 | `cd n` goes to `n` in the working directory if and only if that is a directory |
| SessionPaths.CdUpAndHome | middleware/src/state_grounded/state_engine.py:184-202 | `cd ..` goes to the parent, `cd` to HOME if that is a directory |
| SessionPaths.TouchMakes | middleware/src/state_grounded/state_engine.py:318-344 | a successful `touch` leaves its target there, as a file if it is new, listed by its parent, and all else as it was; when it succeeds |
| SessionPaths.RmdirHere | middleware/src/state_grounded/state_engine.py:346-372 | `rmdir n` removes the directory `n` of the working directory if and only if nothing is in it |
| SessionPaths.RmHere | middleware/src/state_grounded/state_engine.py:374-420 | `rm n` and `rm -flags n`: a missing `n` is passed over only with `f`, a directory goes only with `r` or `R`, and then with all that is below it |
| SessionPaths.RmPlainHere | middleware/src/state_grounded/state_engine.py:374-420 | without flags only a file can go |
| SessionPaths.WrongArguments | middleware/src/state_grounded/state_engine.py:177-430 | with too many or too few arguments, or an option `mkdir` does not know, a command complains and changes nothing but the exit code |
| SessionPaths.ExportSets | middleware/src/state_grounded/state_engine.py:204-228 | `export NAME=value` sets that variable and `unset NAME` removes it, with no other effect |
| SessionPaths.VarNames | middleware/src/state_grounded/state_engine.py:204-228 | a variable name is letters, digits and underscores, not beginning with a digit; any other is refused and nothing changes |
| SessionPaths.SessionTells | middleware/src/state_grounded/state_engine.py:177-182 | `pwd` tells the working directory, `whoami` the user |
| SessionRuns.StartSound | middleware/src/state_grounded/state_engine.py:64-119 | the state a session starts in is sound, for any list of directories each after its parent |
| SessionRuns.SessionStaysSound | middleware/src/state_grounded/state_engine.py:135-430 | after every sequence of commands the two tables tell the same tree, every path lies in an existing directory, and the working directory exists |
| SessionRuns.LsTellsTheTree | middleware/src/state_grounded/state_engine.py:264-297 | `ls` lists a name if and only if that path exists, hidden ones with `a`, in long form with `l` |
| SessionRuns.RemovalIsExact | middleware/src/state_grounded/state_engine.py:590-600 | a removal takes away a path if and only if its target is an ancestor of it |
| SessionRuns.MkdirThenRmdir | middleware/src/state_grounded/state_engine.py:234-372 | `rmdir` after a successful `mkdir` restores both tables |
| SessionRuns.RemovesExactly | middleware/src/state_grounded/state_engine.py:590-600 | in a sound state, in whatever order Python lists the children, the recursion meets no missing node; it removes exactly the paths at and below its target if and only if its recursion limit reaches below the deepest of them, and is otherwise broken off with a sound part of the tree left |
| SessionRuns.AnswerSound | middleware/src/state_grounded/state_engine.py:135-430 | in a sound state every command leaves a sound state, and it ends in a KeyError if and only if it is `cd` without HOME or `whoami` without USER: the lookups in the two tables never fail |
| SessionRuns.MissingNodeRaises | middleware/src/state_grounded/state_engine.py:590-600 | in a state where a directory lists just one child and that has no node, removing the directory does end in a KeyError |

## Left out

- FsEffects.RemoveEffect: and `RmdirEffect` are for paths that lead through no link before their end; through one, the entry `getfile` finds and the directory that `dirname` names are found by two different walks.
- FsCopies.CopyIntoDirectory: is about trees without links and directories that hold a list.
- FsWalkers.FindIsGetFile: asks for distinct sibling names, well-formed link targets and a root that is no link; with duplicate names the walkers differ (`FsAgreement.FirstAgainstLast`, for trees without links).
- FsRuns.RunKeepsPlain: is about trees without links; there a path that `getfile` reaches through a link need not lie in the directory its `dirname` names.
- FsRuns.RunFrame: speaks of paths apart from the touched places; what the touched places show is in the lemma of each operation.
- Filesystem.HoneyPotFilesystem.RenameEntry: when the entry removed by value is not the one looked up (possible through links or duplicate names), the source would share one list between two directories from then on; the model gives the state right after the call, later changes through the shared list are not modelled.
- ScpArrival.UploadsArrive: is about trees without links and places other than the root; `ScpRoundTrip.StreamArrives` covers all streams without saying which files are refused.
- FsSpelling.RenameKeepsDistinctExactly: asks for an old path without empty pieces; with one, the entry looked up need not be the one taken out.
- FdTable.PipeProtocol.CreateRedirectTarget: `mkfile` answering False at its quota, after which the new backing goes to an older entry of the path if there is one, is left out.
- AbuseIpdb.LogBook.Cleanup: covers the deletions; sleeping, dumping the state and rescheduling are left out.
- TtyLog.RoundTrip: is for calls whose length field is the length of the data, as every caller passes it.
- AbuseIpdbRuns.ReportsAreEarnedAndSpaced: assumes positive time stamps, since the source takes a zero for a missing one.
- Ja4.SameJa4ExactlyWhenAlike: the hash is any function that separates the strings in question; nothing is proved about SHA-256.
- `mv`, `rm`, wildcards (`resolve_path_wc`), `mkdir` and `rmdir` of the shell commands, `chmod`, `chown`, `utime`, `stat`: thin wrappers over the walkers; `mv` onto an existing name duplicates it.
- SFTP file handles, `init_honeyfs`, `file_contents` and everything on the real disk; the path under which content is stored is an arbitrary function of the content.
- Multi-byte text: `\d`, `isdigit`, `isalpha` and white space are those of ASCII; decoding an scp file name is an arbitrary partial function.
- Time is a parameter or an event; `ttylog` stamps are given in whole seconds and microseconds.
- TFTP: the transfer identifier is not checked by the client and not modelled; `stopListening` takes effect at once; decoding error messages and saving the artifact are left out.
- The descriptor table: links between virtual files, disk errors while appending, and the texts of complaints; what a file without a backing file of its own reads as is a parameter.
- AbuseIPDB: sleeping after Retry-After, the intolerant mode, state dump and reload, the HTTP request.
- Discord: the state after `stop`, the delays, the embeds.
- The TLS parser works on one record with the whole hello; `parse_http_request` and JA4H are left out.
- Session state: `echo`, `chmod` with the mode bits, `shlex` and the texts of messages; variable substitution is an arbitrary function; the fixed list of initial directories is a parameter.
- The language model, its prompt, the guard before it, the HTTP bridge and the dashboard.
- Canned-output commands, the scheduling of `HoneyPotShell`, transports and reactors of Twisted.
