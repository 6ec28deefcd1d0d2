# Verification of the parallel GIT fan computation

The repository computes GIT fans in parallel: it enumerates and tests the faces of a simplex, turns the
surviving ones into orbit cones, closes those under a symmetry group, and then traverses the fan of GIT cones,
storing each cone once. This project models the parts that coordinate this work and proves what they are for.
`dafny verify dfyconfig.toml` checks all of it.

## Contents

| file | models |
|---|---|
| `Traversal.dfy`, `TraversalSafety.dfy`, `TraversalLiveness.dfy`, `TraversalQueue.dfy` | the Petri net that traverses the fan, its invariant, its result, its termination, and when it fetches |
| `Binomials.dfy`, `Faces.dfy`, `BlockSkipping.dfy`, `FaceSkipping.dfy`, `FaceIterator.dfy` | subsets in size-then-lexicographic order, and the iterator that skips binomially many of them in word-size arithmetic |
| `BinomialBounds.dfy`, `IncrementLimits.dfy` | exactly which increments of that iterator are right |
| `FacePackages.dfy`, `PackageLists.dfy`, `FacesNet.dfy`, `PackageLimits.dfy` | cutting the faces into packages, exactly when these list every face once, and the net that tests them |
| `Farm.dfy`, `BatchNet.dfy` | the task farm two nets share, and the net that processes a list in batches |
| `Permutations.dfy`, `PermutationPowers.dfy` | permutations as image vectors, groups as closed lists, actions |
| `OrbitExpansion.dfy`, `OrbitPhase.dfy`, `OrbitRun.dfy` | expanding orbits of orbit cones, keeping one of equal orbits, flattening, and the nets that do so one after the other |
| `Hashes.dfy`, `HashContents.dfy`, `Sieve.dfy`, `Symmetry.dfy` | canonical hashes, the orbit cones their indices stand for, orbit representatives, the traversal modulo symmetry |
| `HexCodec.dfy` | the hexadecimal names of cones |
| `Directories.dfy`, `StringPaths.dfy`, `StringContainer.dfy`, `EmptiedDirectories.dfy`, `NestedCreation.dfy`, `StringIteration.dfy` | the set of strings kept as a directory tree, under concurrency |
| `StorageContract.dfy`, `TraversalStorage.dfy`, `RpcServer.dfy`, `ConstantStorage.dfy`, `StorageTrees.dfy`, `LinearStorage.dfy`, `StorageProgress.dfy` | what a traversal needs of a cone storage, three storages that provide it, and that their calls return |
| `TraversalOnStorage.dfy` | the net and a storage side by side, in particular the two directory trees |
| `LruCache.dfy` | the cache of least recently used values |
| `Seqs.dfy`, `Arithmetic.dfy` | bags, sums and integer division |

## How it is modelled

**Nets.** A net is a step relation on its places; a place is the sequence of its tokens. A firing that runs
outside the workflow engine is several steps: its `connect-in` and `connect-inout` tokens are gone between the
first and the last, and its calls into the storage happen one by one in between, interleaved with everything
else. `connect-read` tokens stay. That the flag and counter places hold one token at most is part of the
invariants. A result for a run holds for every interleaving. Counters are unbounded upwards; every unsigned
subtraction is shown not to wrap where the source relies on it (`Word` is the value of an `unsigned long`).

**Traversal.** Cones are of any type with an arbitrary neighbour function. Adding a cone is the step in which
the storage decides (`Claim` or `Known`) and the step in which the cone becomes fetchable and is counted
(`Mark`); fetching is one `Take` per cone, and a fetch may end early only when nothing is left that was marked
when it began, so that it may miss cones marked meanwhile. `StorageContract` states these steps on their own;
`TraversalStorage` shows that the net uses exactly them, and the three storages refine them. In
`TraversalOnStorage` net and storage are separate and share only the calls and their answers; the result of the
traversal holds of the two together, also when the storage steps are single mkdir and rmdir calls. The remote server
answers each call at once. The constant storage works on two string sets whose operations take effect in one
step, which `StringContainer` proves of the directory trees; `StorageTrees` puts both together, so that every
interleaving of single mkdir and rmdir calls is a history of the contract. The linear storage refines the
constant one.

The result needs a positive job size: with size 0 nothing is ever fetched. With a limit `max_cones` the net
stops fetching at the limit; the lemmas say what then holds, and that the result is complete whenever the
number it reports stays within the limit.

**Termination detection.** `available` is lowered by a fetch that found nothing. The invariant that makes this
sound counts: while the flag is down and no fetch runs, there are at most as many marked cones as successful
insertions whose count has not been added up yet (`Backed` in `TraversalSafety`), so some `sum_up` is still to
come and will raise the flag.

**Fetching.** With a bound on the job queue, queued lists, running jobs, pending counts and the running fetch
together never exceed it, and nothing but the bound, the flag and a running fetch delays the next fetch
(`TraversalQueue`). The flag is up exactly if a cone was added or found since the last fetch that found nothing.

**Face iterator.** The class has the source's fields and its loops, with the product in the skipping loop
reduced modulo 2^64 (`NewDiff`). `Skipping` and `Reached` say what a whole increment comes to in that
arithmetic, whatever the input. A round goes wrong when the loop accepts a block whose product is the first to
leave the word (`WrapAccepted`): it then passes over another number of faces than it counts. From one place an
increment equals single steps if and only if none of its rounds does this (`FaceSkipping.CorrectIffClean`).
`Exact(inc, n)` says that no block on n vertices does it, a condition on `inc` and `n` alone; it is the exact
one for all places together (`IncrementLimits.CorrectEverywhereIff`). It holds for every increment up to 62
vertices and whenever `(inc + 1) * n` is below 2^64; on 63 vertices it fails (`IncrementLimits.FailsOn63`).
Vertices are below 2^31, as faces are vectors of `int`.

**Packages.** The generator hands out what the iterator counts, wraps included. For every positive job size the
packages list each face once if and only if the increments at the multiples of the job size accept no wrap
(`PackageLists.EachOnceIffClean`); otherwise a face is missing, or, with the largest job size only, listed twice.
For `k = 0` the first package starts with the empty face, which the next call takes for "no package yet" and
hands out again. `FacesNet.PackagesEndIff` gives the exact condition under which the packages end. For `k >= 1`
they always do. A package longer than what is left, possible with the largest job size only, makes the worker
throw; the net takes it as ending with the last face.

**Groups and actions.** A group is a list of permutations that contains the identity and is closed under
products; inverses are derived. Cones carry an action with `act(act(c, g), h) == act(c, g * h)`, a file's
content stands for the cone, contents are ordered as strings. Permutations count from 0; Singular counts from
1, and the readers and writers of the files shift by one (`Hashes.Move` does the shift where hashes meet
permutations). Index x of a hash stands for the x-th orbit cone of the flattened list, and moving hashes by the
joined permutations is moving these cones by the group (`HashContents`). The neighbour function commutes with the group on hashes; that is a hypothesis (`Symmetric`).

**Hashes.** The meaning of the compiled helpers is assumed: `composeIntvecs` maps each index,
`binaryToBigint` is the sum of the powers of two. No cone has the empty hash; for it the source's
`bigintToBinary` runs into an invalid index range.

**String sets.** Creating a path goes through its directories one by one and starts again at the first when a
parent has disappeared. That this flat form makes the same attempts as the source's nested calls and retry
loops is `NestedCreation.RecursionIsSteps`. `mkdir` and `rmdir` are atomic. Any number of removers is allowed,
though the program has one. The strings are those whose path consists of ordinary names (`Storable`): with names
of three characters or more these are all strings the container accepts (`StringPaths.OrdinaryNames`); with
shorter ones ".a" and "a" could share a directory. `EmptiedDirectories` shows that no directory outlives the
strings below it: when all calls have returned, the tree is the base and the paths of the stored strings.

**Calls on a storage.** `StorageProgress` shows that an unmarking call that gets its turn again and again returns,
whatever else goes on, and that all calls return once no new ones come.

**Linear storage.** A cone is refused when its directory exists, and directories of other cones pass through
it if it is a prefix of them that fills whole pieces. `LinearStorage.CompatibleIff` shows that no new cone is
ever refused if and only if this does not happen among the cones added, and `LinearStorage.SavesIffCompatible`
that it is also the exact condition for saving every accepted cone. Both are about cones whose pieces are plain
names for the file system: not empty, without a slash, not "." or "..". The hexadecimal names are of that kind
and, being all of one length, never prefixes of each other. In that storage the base directory counts as
present.

**LRU cache.** List nodes have identities, and an iterator is the identity of its node.

## Model

| member | source | states |
|---|---|---|
| TraversalSafety.TraversalComplete | workflow/traverse_gitfan.xpnet:33-254 | In every run in which `clean` has fired: the reported number is the size of the store; no cone is left marked unless the limit was reached; without a limit, or if the number is within it, the store is exactly the set of cones reachable from the start cone |
| TraversalSafety.StepInv | workflow/traverse_gitfan.xpnet:33-254 | Every firing and every storage call in between keeps the whole invariant: 1-safe places, stored cones partitioned into marked, fetched and claimed, both counters exact, termination detection sound, every missing neighbour still owed by somebody |
| TraversalSafety.RunInv | workflow/traverse_gitfan.xpnet:33-254 | Every state of every run satisfies that invariant |
| TraversalSafety.StepBacked | workflow/traverse_gitfan.xpnet:105-254 | With the flag down and no fetch running, the marked cones are at most as many as the insertions not yet added up, so the flag will be raised again |
| TraversalSafety.StepPartition | src/util-gitfan/gitfanImpl.cpp:522-559 | Adding and fetching move cones between claimed, marked and fetched without losing or doubling one |
| TraversalSafety.OwedStep | workflow/traverse_gitfan.xpnet:155-195 | A neighbour of a fetched cone that is not stored stays owed by the running fetch, a queued list or a worker until it is stored |
| TraversalSafety.StepSound | src/util-gitfan/gitfanImpl.cpp:507-559 | Only reachable cones are stored, queued or about to be inserted |
| TraversalSafety.TraversalAccounting | workflow/traverse_gitfan.xpnet:128-231 | In every state the work counter is the start token plus queued lists, running jobs and pending counts; the cone counter plus what is not yet added up is the size of the store; the fetched amount never exceeds the limit and neither `max_cones - fetched_amount` nor the decrements wrap |
| TraversalSafety.FetchedOnce | workflow/traverse_gitfan.xpnet:134-138 | No cone is fetched twice in a run |
| Traversal.ClosedSetIsComplete | src/util-gitfan/gitfanImpl.cpp:507-520 | A set with the start cone and all neighbours of its members contains every reachable cone |
| TraversalLiveness.Progress | workflow/traverse_gitfan.xpnet:142-146 | Every unfinished state has an enabled step, also with the queue bound reached and with the cone limit making fetches empty; TraversalQueue.FetchesUnlessFull says exactly when the step is a fetch |
| TraversalLiveness.MeasureDecreases | workflow/traverse_gitfan.xpnet:33-254 | With finitely many reachable cones every step makes a well-founded measure smaller |
| TraversalLiveness.NoInfiniteRun | workflow/traverse_gitfan.xpnet:33-254 | So no infinite run exists |
| TraversalLiveness.CanFinish | workflow/traverse_gitfan.xpnet:233-254 | Every run can be continued to one that finishes |
| TraversalLiveness.FinishedIsFinal | workflow/traverse_gitfan.xpnet:233-254 | After `clean` nothing can fire |
| TraversalQueue.QueueBound | workflow/traverse_gitfan.xpnet:128-231 | In every state of every run with a bound on the job queue, the start token, queued lists, running jobs, pending counts and the running fetch together stay within the bound |
| TraversalQueue.FetchesUnlessFull | workflow/traverse_gitfan.xpnet:128-153 | A fetch may start if and only if no other runs, the flag is up, and the outstanding work is below the bound or there is none |
| TraversalQueue.FetchIsFull | src/util-gitfan/gitfanImpl.cpp:494-505 | A fetch returns a full job unless the cone limit is reached or all cones that were there when it began are taken |
| TraversalQueue.AvailableIff | workflow/traverse_gitfan.xpnet:128-231 | The flag is up exactly if a cone was added or found since the last fetch that found nothing |
| StorageContract.OnceEach | src/storage/rpc/server.cpp:18-63 | In every history of a storage a cone is accepted at most once, marked at most once, fetched at most once, and in this order |
| StorageContract.FetchOfHistory | src/storage/rpc/server.cpp:43-62 | In every history a fetch has no more cones than asked for, each once; when it ends it has that many, or nothing is left that was marked when it began |
| StorageContract.FetchIsActions | src/storage/rpc/server.cpp:43-62 | A fetch answered in one go is a begin, one step per cone and an end of the contract |
| TraversalStorage.NetUsesContract | src/util-gitfan/gitfanImpl.cpp:494-559 | Every step of the traversal makes one call the storage contract allows, or none |
| TraversalOnStorage.JointRunIsRun | workflow/traverse_gitfan.xpnet:105-254 | The net and any storage that keeps the contract, apart but for the calls and their answers, make a run of the traversal |
| TraversalOnStorage.TraversalOnTrees | workflow/traverse_gitfan.xpnet:33-254 | On the two directory trees, with single mkdir and rmdir calls interleaved with the firings: when `clean` has fired, the tree of all cones holds reachable cones only, as many as reported, and all of them without a limit or within it; the exception is not thrown |
| RpcServer.Server.Put | src/storage/rpc/server.cpp:18-28 | Adds a cone if and only if it is in neither set; the pending log gets it whenever it is not unmarked |
| RpcServer.Server.Get | src/storage/rpc/server.cpp:43-62 | Returns at most n different marked cones, all of them if fewer than n, and moves exactly those to unmarked; the "double move" error does not happen |
| RpcServer.Server.Save | src/storage/rpc/server.cpp:64-85 | Writes every cone ever added exactly once |
| ConstantStorage.StepRefines | src/storage/filesystem/constant_conestorage.cpp:25-94 | Every operation on the two string sets is one action of the contract or invisible there, a cone counting as fetched from the moment it is collected |
| ConstantStorage.RunRefines | src/storage/filesystem/constant_conestorage.cpp:25-94 | Every run of interleaved calls is a history of the contract and never throws the "Inconsistent" exception |
| ConstantStorage.ClaimedNotMarked | src/storage/filesystem/constant_conestorage.cpp:33-42 | A cone won in `_all` is not in `_marked` when it is inserted there |
| ConstantStorage.RemovalSucceeds | src/storage/filesystem/constant_conestorage.cpp:68-92 | Every collected cone is still in `_marked` when it is removed |
| StorageTrees.StepRefines | src/storage/filesystem/constant_conestorage.cpp:25-94 | Every mkdir and rmdir on the two trees, in any interleaving of the calls, is one operation on the two sets or invisible there |
| StorageTrees.RunRefines | src/storage/filesystem/constant_conestorage.cpp:25-94 | Every run of such steps is a run of the storage in two sets |
| StorageTrees.RunKeepsContract | src/storage/filesystem/constant_conestorage.cpp:25-94 | Hence it is a history of the storage contract and never throws the "Inconsistent" exception |
| StorageProgress.CallReturns | src/storage/filesystem/constant_conestorage.cpp:68-92 | On the two string sets: in every run an unmarking call takes no more steps than it has cones to collect and to remove, and until it has returned it can take one |
| StorageProgress.OwnCanStep | src/storage/filesystem/constant_conestorage.cpp:68-92 | On the two trees: a running unmarking call, perhaps within a removal, always has a step it can take |
| StorageProgress.OwnStepWorks | src/storage/filesystem/constant_conestorage.cpp:68-92 | Each of its own steps leaves it less to do, and no step of another call changes what that is |
| StorageProgress.UnmarkingReturns | src/storage/filesystem/constant_conestorage.cpp:68-92 | So in every infinite run in which it keeps getting its turn it returns, whatever calls go on beside it |
| StorageProgress.Progress | src/storage/filesystem/constant_conestorage.cpp:25-94 | On the two trees: as long as some call has not returned, some step other than the start of a call can be taken |
| StorageProgress.NewCallsCome | src/storage/filesystem/constant_conestorage.cpp:25-94 | In every infinite run new calls are started again and again, so all calls return once none are |
| StorageProgress.RunSound | src/storage/filesystem/constant_conestorage.cpp:25-94 | Every state of every run on the two trees meets what these need |
| LinearStorage.PathForCone | src/storage/filesystem/linear_conestorage.cpp:24-33 | The loop cuts the name into pieces |
| LinearStorage.PieceLengths | src/storage/filesystem/linear_conestorage.cpp:24-33 | All pieces but the last have the full length, and the last has at most that and is not empty |
| LinearStorage.GetCone | src/storage/filesystem/linear_conestorage.cpp:11-22 | The loop erases the base and every slash |
| LinearStorage.GetConeOfPath | src/storage/filesystem/linear_conestorage.cpp:11-22 | Erasing base and slashes from a cone's path gives the cone back |
| LinearStorage.StepRefines | src/storage/filesystem/linear_conestorage.cpp:47-89 | For compatible cones every file system call is one step of the storage in two sets or invisible there; the decisive directory is created exactly if the cone is new |
| LinearStorage.RunRefines | src/storage/filesystem/linear_conestorage.cpp:47-89 | Every run that adds compatible cones only is a run of the storage in two sets |
| LinearStorage.ParentExists | src/storage/filesystem/linear_conestorage.cpp:50-55 | While a cone is added, the parent of the next directory exists |
| LinearStorage.BelowIffPrefix | src/storage/filesystem/linear_conestorage.cpp:24-33 | One cone's directory lies below another's if and only if the other is a proper prefix whose length is a multiple of the piece length |
| LinearStorage.EqualLengthCompatible | src/storage/filesystem/linear_conestorage.cpp:24-33 | Cones of equal length whose pieces are plain names are compatible |
| LinearStorage.NamesCompatible | src/util-gitfan/gitfanImpl.cpp:547-549 | The hexadecimal names of cones over the same positive number of orbit cones are compatible |
| LinearStorage.CompatibleIff | src/storage/filesystem/linear_conestorage.cpp:47-61 | For cones whose pieces are plain names: no run refuses a new cone if and only if no added cone's directory lies above another's |
| LinearStorage.IncompatibleRefusesNew | src/storage/filesystem/linear_conestorage.cpp:47-61 | Otherwise there is a run after which a cone never added is refused |
| LinearStorage.AncestorExample | src/storage/filesystem/linear_conestorage.cpp:24-33 | For instance "a" and "ab" with pieces of length 1 |
| LinearStorage.SavesStored | src/storage/filesystem/linear_conestorage.cpp:91-126 | With no addition under way, the saved entries (mark files and empty directories) are exactly the stored cones, each once |
| LinearStorage.SavesIffCompatible | src/storage/filesystem/linear_conestorage.cpp:91-126 | For cones whose pieces are plain names: no run loses an accepted cone on saving if and only if no added cone's directory lies above another's |
| LinearStorage.IncompatibleLosesFetched | src/storage/filesystem/linear_conestorage.cpp:91-126 | Otherwise a fetched cone is lost when a cone below it is added before saving |
| StorageProgress.LinearProgress | src/storage/filesystem/linear_conestorage.cpp:47-89 | As long as a call has not returned a step can be taken, and a running unmarking call can take one of its own |
| StorageProgress.NewLinearCallsCome | src/storage/filesystem/linear_conestorage.cpp:47-89 | Here, too, new calls are started again and again in every infinite run |
| StorageProgress.LinearRunSound | src/storage/filesystem/linear_conestorage.cpp:47-89 | Every state of every run that adds compatible cones only meets what these need |
| StringPaths.AsPath | src/storage/filesystem/string_container.cpp:172-194 | Rejects exactly the strings with a slash, a backslash or '$', otherwise cuts the string into pieces and appends the suffix |
| StringPaths.NameLengths | src/storage/filesystem/string_container.cpp:172-194 | All names but the last have the full length; the last has at most that and the suffix, and more than the suffix unless the string is empty |
| Directories.RenderedInjective | src/storage/filesystem/string_container.cpp:158-170 | Different paths of ordinary names have different texts |
| StringPaths.AsString | src/storage/filesystem/string_container.cpp:158-170 | Erases base, suffix and all slashes |
| StringPaths.RoundTrip | src/storage/filesystem/string_container.cpp:158-194 | `_asString` of the path of an accepted string is the string |
| StringPaths.OrdinaryNames | src/storage/filesystem/string_container.cpp:172-194 | For pieces of three characters or more, or strings without a dot, every name on the path is one the file system gives no other meaning |
| StringPaths.NoAncestor | src/storage/filesystem/string_container.cpp:172-194 | For strings whose path consists of ordinary names: no string's directory is an ancestor of another's, and different strings have different directories |
| StringContainer.StepInv | src/storage/filesystem/string_container.cpp:69-146 | Any interleaving of `add` and `remove` calls keeps the tree closed under parents, its marked directories exactly those of accepted strings, and no call throws |
| StringContainer.StepIsSetOperation | src/storage/filesystem/string_container.cpp:95-146 | Each call takes effect in one step, `add` returning whether the string was new and `remove` whether it was there; no other step changes the set |
| StringContainer.MarkedIsLeaf | src/storage/filesystem/string_container.cpp:140-146 | A string's directory is always empty, so removing it cannot fail |
| StringContainer.Conservation | src/storage/filesystem/string_container.cpp:95-146 | In every run successful insertions minus successful removals of a string equal the change of its presence |
| StringContainer.ExactlyOneWinner | src/storage/filesystem/string_container.cpp:95-118 | Of all concurrent insertions of a new string that nobody removes, exactly one returns true |
| StringContainer.RestartsOnlyAfterRemoval | src/storage/filesystem/string_container.cpp:69-93 | A creation starts again only if a directory was removed since it last started |
| StringContainer.CallsReturn | src/storage/filesystem/string_container.cpp:69-146 | Every run is bounded by the work of its first state and every unfinished call can step, so all calls return |
| EmptiedDirectories.StepTidy | src/storage/filesystem/string_container.cpp:120-146 | In any interleaving every directory stays on the path of a stored string, of one being added, or of one being removed down to where its removal has come |
| EmptiedDirectories.RunTidy | src/storage/filesystem/string_container.cpp:120-146 | So it is in every run from the empty tree |
| EmptiedDirectories.OnlyPathsOfStrings | src/storage/filesystem/string_container.cpp:120-146 | When all calls have returned, the tree is exactly the base and the directories on the paths of the stored strings |
| NestedCreation.RecursionIsSteps | src/storage/filesystem/string_container.cpp:69-118 | The nested calls and retry loops make the same attempts as one loop that goes one level on or back to the first |
| StringIteration.Strings | src/storage/filesystem/string_container.cpp:29-56 | Iterating yields every string of the set exactly once |
| Faces.NextIsNext | src/util-gitfan/simplexfaceiterator.cpp:69-155 | What comes after a face in size-then-lexicographic order is its successor and what comes after that |
| Faces.VisitsEachFaceOnce | src/util-gitfan/simplexfaceiterator.cpp:69-155 | Stepping from (n, k) meets every subset of {1, ..., n} with at least k elements, at exactly one step |
| Faces.VisitsOnlyFaces | src/util-gitfan/simplexfaceiterator.cpp:69-155 | And nothing else |
| Faces.StepsFromStart | src/util-gitfan/simplexfaceiterator.cpp:69-155 | The number of steps is C(n, k) + C(n, k + 1) + ... + C(n, n) |
| Faces.Jump | src/util-gitfan/simplexfaceiterator.cpp:106-131 | The difference of the counts of faces ahead is the number of single steps between two faces of one size |
| FaceIterator.StartOfOneBlock | src/util-gitfan/simplexfaceiterator.cpp:20-28 | Finds the maximal block of consecutive numbers that ends at an index |
| BlockSkipping.ProductIsMultiple | src/util-gitfan/simplexfaceiterator.cpp:111-124 | Without a wrap the division of the skipping loop is exact: the product is the block size times the binomial coefficient |
| BlockSkipping.ShiftedRight | src/util-gitfan/simplexfaceiterator.cpp:111-124 | Unless a wrap is accepted, the loop ends with the right number of faces and the largest block that can be skipped within inc and without a wrap |
| BlockSkipping.ShiftedWrong | src/util-gitfan/simplexfaceiterator.cpp:111-124 | If a wrap is accepted, the number the loop ends with is too small |
| FaceSkipping.CorrectIffClean | src/util-gitfan/simplexfaceiterator.cpp:69-155 | From one place an increment, any unsigned long, equals single steps in place and count if and only if none of its rounds accepts a wrap |
| FaceSkipping.ExactIsCorrect | src/util-gitfan/simplexfaceiterator.cpp:69-155 | If no block on n vertices can make the loop accept a wrap, the increment equals single steps from every place |
| FaceSkipping.UncleanIsUnequal | src/util-gitfan/simplexfaceiterator.cpp:69-155 | An increment that accepts a wrap passes over more faces than it counts, or, for the largest increment only, over fewer and stops before the end |
| IncrementLimits.CorrectEverywhereIff | src/util-gitfan/simplexfaceiterator.cpp:69-155 | For every unsigned long inc and int n: the increment equals single steps from every place if and only if no block on n vertices makes the loop accept a wrap |
| IncrementLimits.SmallSimplex | src/util-gitfan/simplexfaceiterator.cpp:111-124 | Up to 62 vertices no product of the loop leaves the word, whatever inc is |
| IncrementLimits.SmallIncrement | src/util-gitfan/simplexfaceiterator.cpp:111-124 | Nor if (inc + 1) * n is below 2^64 |
| IncrementLimits.NoWrapIsExact | src/util-gitfan/simplexfaceiterator.cpp:111-124 | If no product leaves the word, the increment is exact |
| IncrementLimits.FailsOn63 | src/util-gitfan/simplexfaceiterator.cpp:105-131 | On 63 vertices, from {1, ..., 32} by 5 * 10^17: the first round passes over 916312070471295266 faces but counts 339851318167871778, and the increment is wrong |
| BinomialBounds.NotTwoToThe64 | src/util-gitfan/simplexfaceiterator.cpp:117-118 | No binomial coefficient of numbers below 2^31 is 2^64, so a wrap is never right by accident |
| FaceIterator.BlockToShift | src/util-gitfan/simplexfaceiterator.cpp:108-124 | Computes the block and count of the loop in word-size arithmetic; unless a wrap is accepted the count is C(zeroCount + size, size), at most inc + 1, and the block the longest for which that holds and the product fits the word |
| FaceIterator.SimplexFaceIterator.StepFromRightEnd | src/util-gitfan/simplexfaceiterator.cpp:82-98 | The first branch is one step, or finds the last face of the size |
| FaceIterator.SimplexFaceIterator.MoveLast | src/util-gitfan/simplexfaceiterator.cpp:99-104 | The second branch passes over as many faces as it moves the last number |
| FaceIterator.SimplexFaceIterator.SkipBlock | src/util-gitfan/simplexfaceiterator.cpp:105-131 | The third branch passes over C(zeroCount + size, size) - 1 faces and subtracts the computed number of steps, which is one round of the specification |
| FaceIterator.SimplexFaceIterator.NextSize | src/util-gitfan/simplexfaceiterator.cpp:134-153 | From the last face of a size to the first of the next, or to the end |
| FaceIterator.SimplexFaceIterator.Increment | src/util-gitfan/simplexfaceiterator.cpp:69-155 | For every inc: ends at the place and returns the count that the specification of the rounds gives; ExactIsCorrect and CorrectEverywhereIff say when that is inc single steps |
| FaceIterator.SimplexFaceIterator.Deref | src/util-gitfan/simplexfaceiterator.cpp:55-67 | The current face, or an error at the end |
| FacePackages.CreateSimplexFaces | src/util-gitfan/gitfanImpl.cpp:184-211 | The next package: from where the last one left off, its length the number the iterator counts over `range`, finished if the iterator is then at its end; for all lengths, or the error if there is no further face |
| FacePackages.FacesInPackage | src/util-gitfan/gitfanImpl.cpp:251-269 | Stepping through a package lists its faces, or throws if it is longer than what is left |
| FacePackages.NextPackageSteps | src/util-gitfan/gitfanImpl.cpp:184-211 | A package is not empty and counts at most the range; it is the last exactly if the iterator reaches the end, and otherwise the next begins where the iterator stopped; without an accepted wrap, or below the largest range, it counts no more faces than the iterator passes over |
| FacePackages.FullPackage | src/util-gitfan/gitfanImpl.cpp:184-211 | Without an accepted wrap a package has as many faces as asked for, or all that are left, and is the last exactly if no more than that are left |
| FacePackages.EmptyFaceRestarts | src/util-gitfan/gitfanImpl.cpp:194-197 | For k = 0 every further call hands out the first package again |
| PackageLists.EachOnceIffClean | src/util-gitfan/gitfanImpl.cpp:184-211 | For every positive unsigned long as job size: packages that follow each other to the end list every face from the first on once, and nothing else, if and only if no increment at a multiple of the job size accepts a wrap |
| PackageLists.UncleanSpoils | src/util-gitfan/gitfanImpl.cpp:184-211 | Otherwise some face is missing or listed more than once |
| PackageLists.AtMostOnce | src/util-gitfan/gitfanImpl.cpp:184-211 | Below the largest job size no face is listed twice and nothing else is listed |
| PackageLists.ExactIsCleanJobs | src/util-gitfan/gitfanImpl.cpp:184-211 | A job size that is exact on r vertices is right from every first face |
| PackageLimits.FailsOn63And32 | src/util-gitfan/gitfanImpl.cpp:184-211 | For the faces of at least 32 of 63 vertices in jobs of 5 * 10^17, the packages end but some face is in none of them |
| PackageLimits.CleanOn63And63 | src/util-gitfan/gitfanImpl.cpp:184-211 | For all 63 vertices the same job size is right although it is not exact |
| PackageLimits.SmallIsClean | src/util-gitfan/gitfanImpl.cpp:184-211 | Up to 62 vertices every job size is right |
| FacesNet.PackagesEndIff | src/util-gitfan/gitfanImpl.cpp:184-211 | For every positive job size: the packages end if and only if k >= 1 or the first increment reaches the end; then they follow each other to the end |
| FacesNet.PackagesListIff | src/util-gitfan/gitfanImpl.cpp:184-211 | When they end, they list every face with at least k elements once, and nothing else, if and only if no increment accepts a wrap |
| FacesNet.NeverOutOfRange | src/util-gitfan/gitfanImpl.cpp:205-208 | For k >= 1 the iterator is never dereferenced at its end, whatever the job size and whatever wraps |
| FacesNet.EachFaceOnce | src/util-gitfan/gitfanImpl.cpp:184-211 | The list holds each subset with at least k elements once and nothing else |
| FacesNet.FacesNetCorrect | workflow/full_dim_afaces.xpnet:47-172 | In whatever order packages are tested and joined, for every positive job size: if no increment accepts a wrap, a finished run lists each face with at least k elements that passes the test exactly once; otherwise some face with at least k elements, if it passes, is not listed exactly once; below the largest job size nothing is listed twice and only such faces are |
| FacesNet.StepsAreBounded | workflow/full_dim_afaces.xpnet:47-172 | Every step lowers a bound on the steps left |
| FacesNet.Progress | workflow/full_dim_afaces.xpnet:47-172 | Every unfinished state has an enabled step |
| Farm.StepInv | workflow/list_manipulation.xpnet.in:101-174 | Generating, processing and joining keep: the counter is the number of open tasks, nothing is lost, the generator is where its own history says |
| Farm.DoneIsComplete | workflow/list_manipulation.xpnet.in:175-202 | When `clean` is enabled all tasks were generated and all results joined |
| BatchNet.GeneratedRanges | workflow/list_manipulation.xpnet.in:79-118 | The ranges follow each other without gap or overlap, none is empty, all but one that reaches the end have exactly the size of a batch, and the flag goes up exactly when they cover the list |
| BatchNet.RangesAreBatches | workflow/list_manipulation.xpnet.in:79-118 | The i-th range begins at i times the batch size and has that length, or what is left |
| BatchNet.CountOfBatches | workflow/list_manipulation.xpnet.in:79-126 | So there is one range for the empty list and otherwise the list size over the batch size, rounded up |
| BatchNet.RangesEndIff | workflow/list_manipulation.xpnet.in:101-126 | The ranges come to an end if and only if the batch size is positive or the list is empty |
| BatchNet.NoUnderflow | workflow/list_manipulation.xpnet.in:109-173 | `list_size - start` and the decrements never wrap; the counter is queued plus running plus unjoined tasks |
| BatchNet.BatchNetCorrect | workflow/list_manipulation.xpnet.in:54-202 | A finished run leaves no token in the net; skipped, the list is unchanged; otherwise it is the multiset union of the results of ranges that tile the list in full batches, as many as the list size over the batch size, rounded up |
| BatchNet.ElementWiseCorrect | workflow/list_manipulation.xpnet.in:127-174 | For processing element by element the result is, up to order, that of one pass over the list |
| BatchNet.Progress | workflow/list_manipulation.xpnet.in:54-202 | Every unfinished state has an enabled step |
| BatchNet.RunsAreBounded | workflow/list_manipulation.xpnet.in:54-202 | Every run is shorter than a bound that depends only on the list and the batch size |
| BatchNet.ExpandOrbitConeOrbitsInit | workflow/list_manipulation_function_container.hpp:116-129 | The batch size of orbit expansion is positive and the largest whose work stays within a job |
| Permutations.Multiply | src/util-gitfan/singular_library_wrapper.cpp:490-502 | The product: first the right factor, then the left |
| Permutations.Inverse | singular/gitfanparallel.lib:55-65 | A closed list of permutations with the identity has inverses |
| PermutationPowers.PermutationPower | singular/gitfanparallel.lib:68-92 | The k-th power; for negative k the inverse of the power |
| PermutationPowers.PowerAdd | singular/gitfanparallel.lib:68-92 | Exponents add |
| OrbitExpansion.RemoveDuplicates | src/util-gitfan/gitfanImpl.cpp:366-397 | Elements without repetition by content, both index tables consistent, and a smallest element |
| OrbitExpansion.LessIffFirstDifference | src/util-gitfan/gitfanImpl.cpp:366-397 | One content is smaller than another exactly if it ends, or has the smaller character, where they first differ |
| OrbitExpansion.ExpandOrbitConeOrbit | src/util-gitfan/gitfanImpl.cpp:332-468 | After the swap a smallest content is in front, and each permutation entry is found by way of some duplicate of its element |
| OrbitPhase.ExpansionIsOrbit | src/util-gitfan/gitfanImpl.cpp:347-454 | Whatever duplicates were kept, the elements are the orbit, each content once, smallest first, and the permutations send each element to its image |
| OrbitPhase.OrbitActionIsGroupAction | src/util-gitfan/gitfanImpl.cpp:428-454 | The permutations are bijections, and first p then q is the permutation of p * q |
| OrbitPhase.IsLastOfAllEqualOrbits | src/util-gitfan/gitfanImpl.cpp:306-330 | True exactly if no later orbit has the same smallest content |
| OrbitPhase.EqualOrDisjoint | src/util-gitfan/gitfanImpl.cpp:306-330 | Orbits with the same smallest content are equal, others are disjoint |
| OrbitPhase.KeepUniqueProcess | workflow/list_manipulation_function_container.hpp:169-190 | Is processing element by element, keeping the last of equal orbits |
| OrbitPhase.KeptOnce | workflow/list_manipulation_function_container.hpp:169-190 | Keeping the last of equal orbits keeps every content exactly once |
| OrbitPhase.RemoveOrbitStructure | src/util-gitfan/gitfanImpl.cpp:93-142 | Joins the elements, and shifts and joins the permutations |
| OrbitPhase.OrbitPhaseCorrect | src/util-gitfan/gitfanImpl.cpp:94-142 | In whatever order batches deliver: the flattened list has each content once and the joined permutations act on it as the group |
| OrbitPhase.OrbitPhaseLossless | src/util-gitfan/gitfanImpl.cpp:94-142 | The flattened list holds exactly the contents of the representatives' orbits, each once |
| OrbitPhase.FlattenedActionIsGroupAction | src/util-gitfan/gitfanImpl.cpp:94-142 | The joined permutations are bijections of the whole list and keep the composition law |
| OrbitPhase.FlattenedIsGroup | src/util-gitfan/gitfanImpl.cpp:94-142 | The joined permutations are a group of permutations of the list: the identity is among them and they are closed under products, as the traversal modulo symmetry assumes |
| OrbitRun.ExpansionRun | workflow/orbit_cones_from_afaces.xpnet:64-73 | A finished run of the expansion net, in any interleaving, holds orbits of representatives only, and the orbit of each |
| OrbitRun.OrbitPhaseRuns | workflow/orbit_cones_from_afaces.xpnet:64-127 | From the representatives through a finished expansion, a finished run that keeps unique orbits, and flattening: each content of their orbits exactly once, nothing else, and permutations that act as the group and are a group |
| Hashes.BigintToBinary | singular/gitfanparallel.lib:285-315 | Decodes a positive number below 2^r to the ascending list with that code |
| Hashes.DecodedIsUnique | singular/gitfanparallel.lib:285-315 | Only one ascending list has the code |
| Hashes.MinimalRepresentative | singular/gitfanparallel.lib:101-116 | A member of the hash's orbit, with the smallest code in it |
| Hashes.CanonicalIffSameOrbit | singular/gitfanparallel.lib:101-116 | Two hashes have the same minimal representative if and only if they share an orbit |
| Hashes.CanonicalIdempotent | singular/gitfanparallel.lib:101-116 | Minimal representatives are their own |
| Hashes.ComputeOrbit | singular/load_git_cones.lib:55-86 | The images of a hash under the group, each once, as ascending lists |
| Hashes.ApplyToAll | singular/gitfanparallel.lib:101-116 | Applied to all indices in order, a permutation gives the vector it is written as, counting from 1 |
| HashContents.MoveIsAction | src/util-gitfan/gitfanImpl.cpp:94-142 | Moving an index by a joined permutation leads to the orbit cone that the group element makes of the one the index stands for |
| HashContents.ImageIsMoved | singular/gitfanparallel.lib:101-116 | So the image of a hash stands for the images of the orbit cones the hash stands for |
| HashContents.ConesTellHashes | src/util-gitfan/gitfanImpl.cpp:94-142 | Different hashes stand for different sets of orbit cones |
| HashContents.OrbitIsConeOrbit | singular/load_git_cones.lib:55-86 | Two hashes share an orbit if and only if their sets of orbit cones do |
| HashContents.HashesMoveAsCones | src/util-gitfan/gitfanImpl.cpp:94-142 | This holds of whatever the orbit phase leaves, in any order of delivery |
| HashContents.CanonicalIsConeImage | singular/gitfanparallel.lib:101-116 | A minimal representative stands for an image of the orbit cones its hash stands for |
| Sieve.FindOrbitRepresentatives | singular/gitfanparallel.lib:377-429 | Fails exactly from n = 31 on; otherwise terminates with subsets of at least the minimum size, each the smallest of its orbit, in pairwise different orbits, such that every large enough nonempty subset is in the orbit of one |
| Sieve.OneRepresentativeEach | singular/gitfanparallel.lib:377-429 | No orbit has two representatives in the list |
| Symmetry.ToMinimalRepresentatives | singular/gitfanparallel.lib:118-125 | Each neighbour is replaced by the minimal representative of its orbit |
| Symmetry.ReducedReach | src/util-gitfan/singular_library_wrapper.cpp:466-481 | Reachable modulo symmetry are exactly the minimal representatives of images of reachable cones |
| Symmetry.SymmetricTraversalLossless | src/util-gitfan/singular_library_wrapper.cpp:424-484 | A finished traversal modulo symmetry stores one cone per orbit, the smallest, and the orbits of the stored cones make up exactly the images of all cones reachable without symmetry |
| Symmetry.TranslatesReachable | src/util-gitfan/singular_library_wrapper.cpp:466-481 | Those images are the reachable cones themselves if and only if the images of the start cone are reachable |
| Symmetry.ComputeOrbits | singular/load_git_cones.lib:35-53 | Lists every cone of the orbits, and from hashes of different orbits each once |
| Symmetry.LoadFan | singular/load_git_cones.lib:35-53 | From a finished traversal to the loaded list: every image of a reachable cone exactly once, nothing else |
| HexCodec.ListToHexString | src/util-gitfan/conversion.hxx:182-231 | One digit per block of four indices, or the error if an index exceeds maxValue; of a strictly ascending list of positive indices the text, read as a base-16 number, is the sum of 2^(x - 1), with no more digits than maxValue needs; the default branch is not reached |
| HexCodec.HexStringToList | src/util-gitfan/conversion.hxx:233-293 | The ascending list of positive indices whose sum of 2^(x - 1) is the text read as a base-16 number, or the error if some character is no hexadecimal digit |
| HexCodec.PushIndices | src/util-gitfan/conversion.hxx:240-287 | Each digit, of value c - '0' or c - 'a' + 10, pushes the positions of its bits |
| HexCodec.TextIsNumber | src/util-gitfan/conversion.hxx:182-231 | The encoded text of a strictly ascending list of positive indices is, in base 16, the sum of 2^(x - 1) |
| HexCodec.NumberIsText | src/util-gitfan/conversion.hxx:233-293 | Of the decoded list that sum is the text in base 16, letters of either case |
| HexCodec.RoundTripOfLists | src/util-gitfan/conversion.hxx:182-293 | Decoding inverts encoding of a sorted list up to maxValue if and only if it is strictly ascending with positive indices; the text then has ceil(maxValue / 4) digits |
| HexCodec.Injective | src/util-gitfan/conversion.hxx:182-231 | Different lists have different texts |
| HexCodec.RoundTripOfTexts | src/util-gitfan/conversion.hxx:182-293 | Encoding inverts decoding of hexadecimal texts, up to lower case, with maxValue four times the length |
| LruCache.LRUCache.Get | src/util-gitfan/lru_cache.hpp:20-50 | Returns the cached value or factory(key); for a fixed factory always factory(key); the cached keys stay the `size` most recently used in order of use, each entry pointing at its own key's node |
| LruCache.MostRecentlyUsed | src/util-gitfan/lru_cache.hpp:20-50 | A key is cached if and only if fewer than `size` different keys were used after its last use |
| LruCache.RecentByLastUse | src/util-gitfan/lru_cache.hpp:20-50 | The order is that of the last uses |

## Left out

- The geometry of cones (faces, orbit cones, walls, neighbours, the moving cone): parameters with stated hypotheses.
- FaceIterator.SimplexFaceIterator.Increment: simplices of 2^31 vertices and more, whose faces do not fit vectors of `int`, are excluded.
- FacePackages.FacesInPackage: for packages below 2^32 faces, which the source counts in an `unsigned int`; with longer ones its loop does not end.
- HexCodec.HexStringToList: indices are unbounded, so texts of more than 2^29 digits do not overflow.
- StringPaths.NoAncestor: not for strings with a piece "." or "..", which occur with pieces of one or two characters only; how the file system resolves these is not modelled.
- LinearStorage.CompatibleIff: only for cones without empty pieces, slashes, and pieces "." or ".."; how the file system resolves these is not modelled.
- StringContainer.StepInv: not for such strings either; a subdirectory name length of 0, for which the source does not terminate, is excluded.
- ConstantStorage.RunRefines: assumes that a directory iteration visits every entry that exists throughout it, and none twice; the retries after other exceptions are left out, since only runs without disk faults are modelled.
- LruCache.LRUCache.Get: the factory returns; what a throwing factory would leave behind is not modelled.
- RpcServer.Server.Get: takes marked cones in any order, not in the order of the set.
- OrbitPhase.RemoveOrbitStructure: files keep their paths; copying them to their final directory is left out.
- Hashes.MinimalRepresentative: not for the empty hash, for which the source fails.
- createSimplexFacesFromFile and loadListPartially: stream positions and end-of-file behaviour.
- The evolution log, pending unmarked cones, timed flushing, lock files, the RPC protocol and client: input and output.
- Singular calls, SSI files and value conversions: foreign calls.
- Logging, performance records, escaping of line breaks, option parsing and command lines: text.
