# manko tournament engine, modelled in Dafny

This project models the core of `de.j13g.manko`. It is a tournament engine that:
- keeps entrants in rounds;
- draws pairings;
- records who advanced, who was eliminated, scores and placements;
- decides which round comes next.

The model has three layers, all immutable datatypes with pure transition functions:

- **Containers**
  - `Pair` and `UniformPair` (pairings compared by position): module `Pairs`.
  - The random-removal `ShuffledSet`: module `ShuffledSets`.
  - The unique pair index `UniformPairUniqueBiSet`: module `UniquePairIndex`.
  - The insertion-ordered multi pair index `UniformPairBiSet`: module `PairIndex`.
- **Managers**
  - `PairingManager`: active and finished pairings.
  - `ResultManager`: advanced and eliminated.
  - `ScoreManager`.
  - `PlacementManager`.
  - The `Placement` enumeration.
- **Rounds and above**
  - The `DynamicElimination` round, with floating results and orphaned replays.
  - The closed four-entrant `SemiFinal`.
  - The `Final`, with its queue of the third-place and first-place pairings.
  - The three-entrant, scored `RoundRobinFinal`.
  - The `Round` sum type that the format dispatches on.
  - `DefaultFormat`, which chooses the next round.
  - `Tournament`, with its one level of history.

## Modelling choices

- **Entrants** are values of a type parameter `E` compared with `==`. Java's reference `==` and `equals` therefore coincide.
- **Results and errors.** Every operation returns a `Result`.
  - Each exception the Java code throws is a constructor of `Errors.Error`.
  - A mutation that also returns a value gives back a `Step(state, value)`.
  - An operation that fails returns no new state. On every path a valid state can take, a failing call changes nothing, as in the source. Four operations can change state before they throw, but only from a broken state; the Left out line that starts with their names says which.
  - An `IllegalArgumentException` keeps its own name, `IllegalArgument`, including one that a container such as the pairing manager raises.
  - `Fault` is a bare `RuntimeException` or a `NullPointerException`:
    - the places where the source wraps another exception in a `RuntimeException`: the empty draw of `DynamicElimination.nextPairing`, `finishPairing`, `declareWinner(E)`, the predetermined draw of `DefaultFormat`, and a semi-final with more than two entrants on one level;
    - the `RuntimeException` of `resetEntrant` and `removeEntrant` for a pairing without the entrant;
    - the null dereferences of `Final.addEntrant` and `Final.removeEntrant`.
  - Three paths that only a broken round reaches are `Fault` too:
    - the empty draw of `RoundRobinFinal.nextPairing`;
    - the two replay paths described under Assertions.
- **Invariants.** Each container and round has a `Valid` predicate that states the invariants its code relies on.
  - Operations do not require `Valid`.
  - Contracts say `Valid(s) ==> …`.
  - Lemmas prove that every operation preserves `Valid`.
- **Randomness.** `java.util.Random` becomes a parameter `rng: nat -> nat`. The index `random.nextInt(n)` picks is `rng(n) % n`.
- **Hash-set iteration order** decides who comes first when `DefaultFormat` builds pairings and `SemiFinal`s. It becomes a parameter `order: seq<E>` that lists the entrants.
- **Corrected members compose.** Where a finding (see Findings) shows the source to be wrong, the layers above use the corrected member. These are `ShuffledSets.RemoveRandom`, `PlacementManagers.SetPlacement`, `DynamicEliminations.AddEntrant` and `DeclareTie`, `Finals.AddEntrant`, and `RoundRobinFinals.AddEntrant`, `RemoveEntrant` and `GetPlacement`. So on the inputs a finding exhibits, the `Rounds`, `DefaultFormats` and `Tournaments` members describe the corrected program, not the source.
  - The one exception is `RoundRobinFinals.IsTie`. It ranks with the source's `getPlacement`, as `isTie` does. With the corrected ranking, a round of two entrants with one win each would count as a tie, and the rematch needs three. With the source's ranking, a round someone has left is a tie only once everyone has left (`DefaultFormats.DepartureEndsRoundRobinFinal`).
- **Assertions.** Java runs with assertions disabled unless asked otherwise, so the model goes on past an `assert` as the source then does.
  - One place is an exception: in `RoundRobinFinal.replayPairing`, a finished pairing without a recorded winner (the `assert` at `RoundRobinFinal.java:163`) is `Fault`, because the next lines would go on with a null winner.
  - The same method's ignored `false` from `pairings.add`, which a valid pairing manager never returns there, is `Fault` as well.
  - `RoundRobinFinalProofs.ReplayPairingPreservesValid` shows that a valid round reaches neither.
  - An assertion that holds in every valid state is proved as a lemma: the count lemmas, `ScoresWithinBounds`, `PlacementsDistinct`.
  - An assertion that fails on a reachable state is a finding.
  - The `assert false` at the end of `RoundRobinFinal.getPlacement` is reachable in a valid round, so `RoundRobinFinals.GetPlacementAsWritten` returns the `TBD` that follows it.
- **Insertion-ordered sets** (`LinkedHashSet`, `UniformPairLinkedBiSet`) are sequences without repeats.

## Model

| member | source | states |
|---|---|---|
| Pairs.ConstructorAccessors | src/main/java/de/j13g/manko/util/Pair.java:11-22 | `getFirst` and `getSecond` give back the constructor's arguments |
| Pairs.EqualsIsOrdered | src/main/java/de/j13g/manko/util/Pair.java:31 | equality depends on order: `Pair(a, b)` differs from `Pair(b, a)` when `a != b` |
| Pairs.GetOther | src/main/java/de/j13g/manko/util/UniformPair.java:11-16 | `getOther` fails with `NoSuchElementException` exactly for a non-member. Otherwise it returns a component, which is not the argument when the components differ, and together the two make up the pair |
| Pairs.GetOtherInvolution | src/main/java/de/j13g/manko/util/UniformPair.java:11-16 | for a member of a pair of two distinct entrants, asking twice for the other side gives back the member |
| Pairs.OtherIsGetOther | src/main/java/de/j13g/manko/util/UniformPair.java:11-16 | the error-free `Other` the rounds use agrees with `getOther` on members |
| Pairs.InEntrantsOf | src/main/java/de/j13g/manko/util/UniformPairUniqueBiSet.java:72-75 | an entrant is a pair element of a set of pairings exactly when some pairing of the set contains it |
| Placements.GetValue | src/main/java/de/j13g/manko/core/Placement.java:23-32 | `getValue`: FIRST is exactly the value 1, SECOND 2 and THIRD 3, NONE 0 and TBD -1, so the ranked placements are exactly those valued 1 to 3 |
| Placements.ToString | src/main/java/de/j13g/manko/core/Placement.java:7-39 | FIRST prints as `1st`, SECOND as `2nd` and THIRD as `3rd`, each title starting with the placement's value as a digit; NONE and TBD print as their constant names |
| Placements.GetValueInjective | src/main/java/de/j13g/manko/core/Placement.java:23-32 | distinct placements have distinct values |
| Placements.ToStringInjective | src/main/java/de/j13g/manko/core/Placement.java:7-39 | distinct placements print differently, so a title or constant name identifies its placement |
| ShuffledSets.Empty | src/main/java/io/github/vonas/manko/util/ShuffledSet.java:27-30 | the new set is empty and valid |
| ShuffledSets.FromSeq | src/main/java/io/github/vonas/manko/util/ShuffledSet.java:32-36 | the collection constructor: its members are the collection's elements, and every member is listed |
| ShuffledSets.Add | src/main/java/io/github/vonas/manko/util/ShuffledSet.java:38-48 | `add` returns true exactly for a non-member and changes nothing otherwise. Afterwards the element is a member. Validity is kept, and so is the weaker listing property the source maintains |
| ShuffledSets.Remove | src/main/java/io/github/vonas/manko/util/ShuffledSet.java:50-58 | `remove` returns true exactly for a member and changes nothing otherwise. Afterwards the element is not a member. Validity and listing are kept |
| ShuffledSets.Clear | src/main/java/io/github/vonas/manko/util/ShuffledSet.java:73-78 | `clear` empties the members, the list and the tombstones |
| ShuffledSets.Pop | src/main/java/io/github/vonas/manko/util/ShuffledSet.java:80-89 | `popRandomListElement`: the list loses one entry, which is exactly the entry at the chosen index |
| ShuffledSets.Pick | src/main/java/io/github/vonas/manko/util/ShuffledSet.java:81 | `random.nextInt(size)` is an index into the list |
| ShuffledSets.RemoveRandomAsWritten | src/main/java/io/github/vonas/manko/util/ShuffledSet.java:60-71 | `removeRandom` as written returns a member and removes it; when it finds no member it has emptied the list and changed no membership |
| ShuffledSets.AsWrittenLosesReaddedMember | src/main/java/io/github/vonas/manko/util/ShuffledSet.java:43-66 | add, remove, a draw of the tombstone, then add again: the element is a member but not listed, and `removeRandom` reports an empty set |
| ShuffledSets.RemoveRandom | src/main/java/io/github/vonas/manko/util/ShuffledSet.java:60-71 | corrected `removeRandom` on a valid set: it fails exactly when the set is empty. Otherwise it returns a member and removes only it, and validity is kept |
| ShuffledSets.RemoveThenAddDrawsOnce | src/test/java/de/j13g/manko/util/ShuffledSetTest.java:43-49 | after add, remove and add of one element, `removeRandom` yields it once, and the next call finds the set empty |
| ShuffledSets.DrawPicked | src/main/java/io/github/vonas/manko/util/ShuffledSet.java:62-66 | when the chosen list entry is a member, the draw returns it and pops exactly that entry |
| ShuffledSets.RemovedIsNeverDrawn | src/main/java/io/github/vonas/manko/util/ShuffledSet.java:62-66 | an element just removed is never returned by `removeRandom`, though its tombstone is still listed |
| UniquePairIndex.Empty | src/main/java/de/j13g/manko/util/UniformPairUniqueBiSet.java:16-18 | a new index is empty and valid |
| UniquePairIndex.Add | src/main/java/de/j13g/manko/util/UniformPairUniqueBiSet.java:24-35 | `add` of a stored pairing is false with no change. Otherwise, if either entrant is already indexed, it throws `IllegalArgumentException`. Otherwise the pairing is stored, `findByElement` of both entrants returns it, no other key changes, and validity is kept |
| UniquePairIndex.Remove | src/main/java/de/j13g/manko/util/UniformPairUniqueBiSet.java:37-46 | `remove` returns true exactly for a stored pairing and changes nothing otherwise. Afterwards both entrants are unindexed, the other keys are unchanged, and validity is kept |
| UniquePairIndex.RemoveByElement | src/main/java/de/j13g/manko/util/UniformPairUniqueBiSet.java:48-54 | `removeByElement` returns what `findByElement` returned, and removes that pairing if there is one |
| UniquePairIndex.Clear | src/main/java/de/j13g/manko/util/UniformPairUniqueBiSet.java:56-60 | `clear` empties the pairs and the index |
| UniquePairIndex.FindByElement | src/main/java/de/j13g/manko/util/UniformPairUniqueBiSet.java:62-65 | in a valid index, an entrant has a pairing exactly when it is a pair element, and the pairing returned is stored and contains it |
| UniquePairIndex.FindLastByElement | src/main/java/de/j13g/manko/util/UniformPairUniqueBiSet.java:67-70 | `findLastByElement` returns the one stored pairing that contains the entrant |
| UniquePairIndex.ElementSet | src/main/java/de/j13g/manko/util/UniformPairUniqueBiSet.java:72-75 | `getPairElementSet` is the set of entrants of the stored pairings |
| UniquePairIndex.KeysAreEntrants | src/main/java/de/j13g/manko/util/UniformPairUniqueBiSet.java:29-44 | in a valid index, the keys are exactly the entrants of the stored pairings |
| UniquePairIndex.PairsAreDisjoint | src/main/java/de/j13g/manko/util/UniformPairUniqueBiSet.java:8-30 | two stored pairings that share an entrant are the same pairing |
| PairIndex.Empty | src/main/java/de/j13g/manko/util/UniformPairBiSet.java:15-17 | a new index is empty and valid |
| PairIndex.Add | src/main/java/de/j13g/manko/util/UniformPairBiSet.java:23-38 | `add` returns false exactly for a stored pairing. Otherwise the pairing is appended in insertion order and filed in the buckets of both entrants. Validity is kept |
| PairIndex.Remove | src/main/java/de/j13g/manko/util/UniformPairBiSet.java:40-62 | `remove` returns true exactly for a stored pairing. The pairing leaves the set and both buckets, the set of bucket keys stays the same, and validity is kept |
| PairIndex.RemoveAll | src/main/java/de/j13g/manko/util/UniformPairBiSet.java:74-75 | removing each pairing of a set takes exactly those pairings out and keeps every bucket key |
| PairIndex.RemoveByElement | src/main/java/de/j13g/manko/util/UniformPairBiSet.java:70-78 | `removeByElement` returns exactly the stored pairings of the entrant, removes them, and leaves its bucket empty |
| PairIndex.FindByElement | src/main/java/de/j13g/manko/util/UniformPairBiSet.java:80-86 | `findByElement` is the set of stored pairings that contain the entrant, and empty for an entrant never indexed |
| PairIndex.LastWith | src/main/java/de/j13g/manko/util/BaseUniformPairBiSet.java:34-38 | the last entry of the insertion order that contains the entrant: none exactly when no entry contains it, and no later entry contains it |
| PairIndex.FindLastByElement | src/main/java/de/j13g/manko/util/BaseUniformPairBiSet.java:34-38 | `findLastByElement` is null exactly when no stored pairing contains the entrant, and otherwise is the one inserted last among those that do (`LastWith` over the insertion order) |
| PairIndex.ElementSet | src/main/java/de/j13g/manko/util/UniformPairBiSet.java:88-91 | `getPairElementSet` covers every entrant of a stored pairing |
| PairIndex.Clear | src/main/java/de/j13g/manko/util/UniformPairBiSet.java:64-68 | `clear` empties the set and the index |
| PairIndex.EmptiedBucketsAreKept | src/main/java/de/j13g/manko/util/UniformPairBiSet.java:40-62 | after the only pairing of two entrants is removed, both are still pair elements, with empty buckets |
| PairingManagers.Empty | src/main/java/de/j13g/manko/core/managers/PairingManager.java:15-16 | a new manager has no active and no finished pairings and is valid |
| PairingManagers.Add | src/main/java/de/j13g/manko/core/managers/PairingManager.java:18-22 | `add` of a finished pairing is false with no change; otherwise the unique active index decides: false when already active, `IllegalArgumentException` exactly when an entrant is in another active pairing, else the pairing is active, found by both entrants, the finished ones untouched; validity (both indices valid, active and finished disjoint) is kept |
| PairingManagers.Finish | src/main/java/de/j13g/manko/core/managers/PairingManager.java:24-33 | `finish` of a finished pairing is false with no change; `NoSuchPairingException` exactly when it is neither finished nor active; otherwise it moves from active to finished (appended last), both entrants leave the active index; validity is kept |
| PairingManagers.RemoveActive | src/main/java/de/j13g/manko/core/managers/PairingManager.java:39-41 | `removeActive` is true exactly for an active pairing, which leaves the active index with both its entrants; the finished pairings are untouched |
| PairingManagers.RemoveFinished | src/main/java/de/j13g/manko/core/managers/PairingManager.java:43-45 | `removeFinished` is true exactly for a finished pairing, which leaves the finished set; the finished entrant set (with its kept buckets) and the active pairings are untouched |
| PairingManagers.Remove | src/main/java/de/j13g/manko/core/managers/PairingManager.java:35-37 | `remove` removes from active if there, else from finished: true exactly for a contained pairing, which afterwards is in neither; validity is kept |
| PairingManagers.RemoveActiveByEntrant | src/main/java/de/j13g/manko/core/managers/PairingManager.java:47-49 | `removeActiveByEntrant` returns the entrant's active pairing, or nothing with no change, and removes it |
| PairingManagers.RemoveFinishedByEntrant | src/main/java/de/j13g/manko/core/managers/PairingManager.java:51-53 | `removeFinishedByEntrant` returns exactly the entrant's finished pairings and removes them, leaving the active ones |
| PairingManagers.GetLastPairingOfEntrant | src/main/java/de/j13g/manko/core/managers/PairingManager.java:60-65 | `getLastPairingOfEntrant` is the active pairing of the entrant when there is one, else its last finished one; it is null exactly when the entrant is in no pairing |
| PairingManagers.FindActiveByEntrant | src/main/java/de/j13g/manko/core/managers/PairingManager.java:67-70 | `findActiveByEntrant` returns an active pairing containing the entrant, and nothing exactly when the entrant is not an active entrant |
| PairingManagers.FindFinishedByEntrant | src/main/java/de/j13g/manko/core/managers/PairingManager.java:72-75 | `findFinishedByEntrant` is exactly the finished pairings containing the entrant |
| PairingManagers.ActiveEntrants | src/main/java/de/j13g/manko/core/managers/PairingManager.java:87-90 | `getActiveEntrants` is the set of entrants of the active pairings |
| PairingManagers.FinishedEntrants | src/main/java/de/j13g/manko/core/managers/PairingManager.java:92-95 | `getFinishedEntrants` covers every entrant of a finished pairing (emptied buckets stay) |
| PairingManagers.HasActiveEntrant | src/main/java/de/j13g/manko/core/managers/PairingManager.java:132-135 | `hasActiveEntrant` holds exactly when some active pairing contains the entrant |
| PairingManagers.HasFinishedEntrantAsWritten | src/main/java/de/j13g/manko/core/managers/PairingManager.java:137-140 | as written, `hasFinishedEntrant` is always true, since `findByElement` never returns null |
| PairingManagers.HasFinishedEntrantAsWrittenIsWrong | src/main/java/de/j13g/manko/core/managers/PairingManager.java:137-140 | on an empty manager the as-written check says yes while no finished pairing contains the entrant |
| PairingManagers.HasFinishedEntrant | src/main/java/de/j13g/manko/core/managers/PairingManager.java:137-140 | corrected: true exactly when some finished pairing contains the entrant |
| PairingManagers.HasEntrant | src/main/java/de/j13g/manko/core/managers/PairingManager.java:127-130 | `hasEntrant` (with the corrected finished check) holds exactly when the entrant is in an active or finished pairing |
| PairingManagers.IsEmptyIffNoPairings | src/main/java/de/j13g/manko/core/managers/PairingManager.java:97-115 | `isEmpty` holds exactly when `contains` is false for every pairing |
| ResultManagers.Empty | src/main/java/de/j13g/manko/core/managers/ResultManager.java:9-10 | a new result manager has nobody advanced or eliminated |
| ResultManagers.Advance | src/main/java/de/j13g/manko/core/managers/ResultManager.java:12-17 | after `advance` the entrant is advanced and not eliminated, every other entrant keeps its result, and advanced and eliminated stay disjoint |
| ResultManagers.Eliminate | src/main/java/de/j13g/manko/core/managers/ResultManager.java:19-24 | after `eliminate` the entrant is eliminated and not advanced, every other entrant keeps its result, disjointness is kept |
| ResultManagers.Reset | src/main/java/de/j13g/manko/core/managers/ResultManager.java:26-29 | after `reset` the entrant has no result, every other entrant keeps its result |
| ResultManagers.MoveTo | src/main/java/de/j13g/manko/core/managers/ResultManager.java:31-52 | `moveTo` is true exactly when the source holds a result for the entrant; then the target holds the same result (advanced stays advanced, eliminated stays eliminated) and the source none; when false neither side changes; nobody else is touched |
| ResultManagers.MoveToAndBack | src/main/java/de/j13g/manko/core/managers/ResultManager.java:38-52 | moving an entrant's result away and back restores the same result and leaves the other side without it |
| ScoreManagers.GetScore | src/main/java/de/j13g/manko/core/managers/ScoreManager.java:8-9 | an entrant never scored has the default score 0 |
| ScoreManagers.Add | src/main/java/de/j13g/manko/core/managers/ScoreManager.java:14-19 | `add` sets the entrant to the default score and no other score changes |
| ScoreManagers.AddScore | src/main/java/de/j13g/manko/core/managers/ScoreManager.java:55-64 | adding a value yields the old score plus the value, which becomes the entrant's score; nobody else changes |
| ScoreManagers.IncrementScore | src/main/java/de/j13g/manko/core/managers/ScoreManager.java:21-28 | `incrementScore` returns and stores the old score plus one; nobody else changes |
| ScoreManagers.DecrementScore | src/main/java/de/j13g/manko/core/managers/ScoreManager.java:30-37 | `decrementScore` returns and stores the old score minus one; nobody else changes |
| ScoreManagers.ResetScore | src/main/java/de/j13g/manko/core/managers/ScoreManager.java:39-48 | `resetScore` returns the old score and leaves the entrant at the default, with its entry removed |
| ScoreManagers.IncrementThenDecrement | src/main/java/de/j13g/manko/core/managers/ScoreManager.java:21-37 | an increment followed by a decrement leaves every entrant's score where it was |
| ScoreManagers.OthersUnchanged | src/main/java/de/j13g/manko/core/managers/ScoreManager.java:39-73 | adding to or resetting one entrant's score never changes another entrant's score |
| PlacementManagers.Empty | src/main/java/de/j13g/manko/core/managers/PlacementManager.java:11-14 | a new placement manager is sound: every winner slot names an entrant holding that placement |
| PlacementManagers.GetPlacement | src/main/java/de/j13g/manko/core/managers/PlacementManager.java:11-32 | an entrant without a placement is at the default `TBD` |
| PlacementManagers.GetEntrantByPlacement | src/main/java/de/j13g/manko/core/managers/PlacementManager.java:34-38 | `getEntrantByPlacement` throws `IllegalArgumentException` exactly for the non-podium placements; in a sound manager the entrant it returns holds that placement |
| PlacementManagers.SetPlacementAsWritten | src/main/java/de/j13g/manko/core/managers/PlacementManager.java:16-21 | as written, `setPlacement` returns the old placement and stores the new one; a ranked placement files the entrant under it, and every other winner slot, the entrant's old one included, is left as it was |
| PlacementManagers.SetPlacementAsWrittenKeepsStaleSlot | src/main/java/de/j13g/manko/core/managers/PlacementManager.java:44-48 | placing an entrant first and then `TBD` leaves `getEntrantByPlacement(FIRST)` naming it although its placement is `TBD` |
| PlacementManagers.SetPlacement | src/main/java/de/j13g/manko/core/managers/PlacementManager.java:16-21 | corrected: returns the old placement, stores the new one, registers a podium placement as the winner of that slot, and keeps the manager sound |
| PlacementManagers.ResetPlacement | src/main/java/de/j13g/manko/core/managers/PlacementManager.java:23-28 | `resetPlacement` returns the old placement, leaves the entrant at `TBD` and frees the slot it held; soundness is kept |
| PlacementManagers.SetPlacementFreesOldSlot | src/main/java/de/j13g/manko/core/managers/PlacementManager.java:44-54 | with the correction, moving an entrant from first to `TBD` frees the first slot |
| DynamicEliminations.Empty | src/main/java/de/j13g/manko/core/rounds/DynamicElimination.java:17-25 | a new round has no entrants, nobody pending, decided or floating, and no pairings |
| DynamicEliminationProofs.EmptyIsValid | src/main/java/de/j13g/manko/core/rounds/DynamicElimination.java:17-25 | the new round satisfies the round invariant: every entrant is exactly one of pending, paired and decided, removed entrants keep at most a floating result, pairings are between two different entrants, and each finished pairing has a side with a (possibly floating) result |
| DynamicEliminationProofs.EntrantStatus | src/main/java/de/j13g/manko/core/rounds/DynamicElimination.java:223-258 | in a valid round `contains` holds exactly when the entrant is pending, paired or has a result |
| DynamicEliminations.AddEntrantAsWritten | src/main/java/de/j13g/manko/core/rounds/DynamicElimination.java:31-44 | as written, `addEntrant` of an entrant with a floating result gives the result back but leaves the entrant outside `entrants` |
| DynamicEliminationProofs.AddEntrantAsWrittenBreaksCounts | src/main/java/de/j13g/manko/core/rounds/DynamicElimination.java:36-39 | after that return, the entrant has a result but is not an entrant, the round invariant is broken, and the count the source asserts after finishing a pairing is off by one |
| DynamicEliminationProofs.AddEntrantAsWrittenBreaksReachableRound | src/main/java/de/j13g/manko/core/rounds/DynamicElimination.java:36-39 | the break is reachable: two entrants are paired, one wins, is removed and comes back |
| DynamicEliminationProofs.DecideThenRemove | src/main/java/de/j13g/manko/core/rounds/DynamicElimination.java:176-197 | in any valid round, deciding an active pairing and removing its winner leads to a state where the as-written return breaks the invariant and the corrected one keeps it |
| DynamicEliminations.AddEntrant | src/main/java/de/j13g/manko/core/rounds/DynamicElimination.java:31-44 | corrected `addEntrant`: false and no change for an entrant of the round; otherwise the entrant becomes an entrant again, getting its floating result back (same advanced or eliminated) when it has one, or becoming pending; the pairings are untouched |
| DynamicEliminationProofs.ReturnAddsOneResult | src/main/java/de/j13g/manko/core/rounds/DynamicElimination.java:36-38 | moving a returning entrant's floating result back adds exactly one result, the entrant's own |
| DynamicEliminationProofs.AddEntrantPreservesValid | src/main/java/de/j13g/manko/core/rounds/DynamicElimination.java:31-44 | the corrected `addEntrant` keeps the round invariant |
| DynamicEliminationProofs.RemoveThenAddRestoresResult | src/main/java/de/j13g/manko/core/rounds/DynamicElimination.java:176-197 | removing an entrant with a result and adding it back makes it an entrant again with the same result, in a valid round |
| DynamicEliminations.FromSeq | src/main/java/de/j13g/manko/core/rounds/DynamicElimination.java:27-29 | the round built from a collection has exactly its members as entrants, all pending, nobody decided and no pairings |
| DynamicEliminationProofs.FromSeqIsValid | src/main/java/de/j13g/manko/core/rounds/DynamicElimination.java:27-29 | the round built from a collection satisfies the round invariant |
| DynamicEliminations.RegisterPairing | src/main/java/de/j13g/manko/core/rounds/DynamicElimination.java:294-311 | `registerPairing` creates the pairing of the two entrants and makes it active, failing only where the pairing manager refuses it; nothing but the pairings changes |
| DynamicEliminationProofs.PendingPairingIsNew | src/main/java/de/j13g/manko/core/rounds/DynamicElimination.java:301-311 | two pending entrants of a valid round form a pairing the manager does not contain yet, and neither is in an active pairing, as the source asserts |
| DynamicEliminations.DrawTwo | src/main/java/de/j13g/manko/core/rounds/DynamicElimination.java:51-53 | two random draws from the pending set yield two different pending entrants, removed from the set, exactly when it holds at least two |
| DynamicEliminations.NextPairing | src/main/java/de/j13g/manko/core/rounds/DynamicElimination.java:46-59 | `nextPairing` throws `NoEntrantsException` exactly with nobody pending and `NoOpponentException` with one; otherwise two different pending entrants leave the pending set and their pairing becomes active, with entrants and results untouched |
| DynamicEliminationProofs.NextPairingPreservesValid | src/main/java/de/j13g/manko/core/rounds/DynamicElimination.java:46-59 | with two or more pending entrants of a valid round `nextPairing` succeeds, keeps the invariant, and pairs two pending, undecided entrants in a new active pairing |
| DynamicEliminationProofs.NextPairingKeepsValid | src/main/java/de/j13g/manko/core/rounds/DynamicElimination.java:46-59 | every successful `nextPairing` keeps the round invariant |
| DynamicEliminationProofs.NextPairingPairsUp | src/main/java/de/j13g/manko/core/rounds/DynamicElimination.java:46-59 | `nextPairing` adds exactly one active pairing, over the two drawn entrants, and changes nothing else but the pending set |
| DynamicEliminationProofs.NextPairingRegisters | src/main/java/de/j13g/manko/core/rounds/DynamicElimination.java:46-59 | `nextPairing` is registering the two entrants the two random draws take out |
| DynamicEliminationProofs.PairUpPreservesValid | src/main/java/de/j13g/manko/core/rounds/DynamicElimination.java:46-59 | moving two different pending entrants into a new active pairing keeps the round invariant |
| DynamicEliminationProofs.NextPairingCanDrawAnyTwo | src/main/java/de/j13g/manko/core/rounds/DynamicElimination.java:46-59 | any two different pending entrants can be the next pairing, for some outcome of the random draws |
| DynamicEliminations.FinishPairing | src/main/java/de/j13g/manko/core/rounds/DynamicElimination.java:313-327 | `finishPairing` moves an active pairing to the finished ones, its sides stop being paired and count among the finished entrants; only the pairings change |
| DynamicEliminationProofs.PartitionCounts | src/main/java/de/j13g/manko/core/rounds/DynamicElimination.java:264-270 | in a valid round, the number of entrants is the paired, advanced, eliminated and pending counts added up, and a finished round has exactly as many results as entrants: the counts the source asserts hold |
| DynamicEliminationProofs.FinishedEntrantCountFails | src/main/java/de/j13g/manko/core/rounds/DynamicElimination.java:322-324 | the first count the source asserts after finishing a pairing, with the entrants that ever finished a pairing, comes out one too high once such an entrant has left |
| DynamicEliminations.DeclareWinnerIn | src/main/java/de/j13g/manko/core/rounds/DynamicElimination.java:79-96 | `declareWinner(entrant, pairing)` throws `IllegalArgumentException` exactly for an entrant outside the pairing, then `NoSuchEntrantException` for a non-entrant, then `NoSuchPairingException` for a pairing that is not active; otherwise the winner is advanced, the other side eliminated, the pairing finished, and no other result changes |
| DynamicEliminationProofs.DeclareWinnerInPreservesValid | src/main/java/de/j13g/manko/core/rounds/DynamicElimination.java:79-96 | a successful declaration keeps the round invariant and decides exactly the two sides of the pairing |
| DynamicEliminationProofs.FinishingKeepsValid | src/main/java/de/j13g/manko/core/rounds/DynamicElimination.java:313-327 | finishing an active pairing whose sides both get a result keeps the round invariant |
| DynamicEliminations.DeclareWinner | src/main/java/de/j13g/manko/core/rounds/DynamicElimination.java:61-77 | `declareWinner(entrant)` throws `NoSuchEntrantException` exactly for a non-entrant and `MissingPairingException` when the entrant is in no active pairing; otherwise it decides the entrant's active pairing and returns it |
| DynamicEliminationProofs.DeclareWinnerPreservesValid | src/main/java/de/j13g/manko/core/rounds/DynamicElimination.java:61-77 | in a valid round the wrapped `RuntimeException` never happens, a paired entrant can always be declared winner, and the result keeps the invariant with the entrant advanced |
| DynamicEliminations.DeclareTieAsWritten | src/main/java/de/j13g/manko/core/rounds/DynamicElimination.java:98-106 | as written, `declareTie` finishes the active pairing and gives neither side a result |
| DynamicEliminationProofs.DeclareTieAsWrittenBreaksCounts | src/main/java/de/j13g/manko/core/rounds/DynamicElimination.java:98-106 | after the as-written tie both sides are neither pending, paired nor decided, and the count the source asserts right after finishing the pairing comes out two short |
| DynamicEliminations.DeclareTie | src/main/java/de/j13g/manko/core/rounds/DynamicElimination.java:98-106 | corrected `declareTie`: `NoSuchPairingException` exactly for a pairing that is not active; otherwise both sides are eliminated and the pairing is finished, nothing else changes |
| DynamicEliminationProofs.DeclareTiePreservesValid | src/main/java/de/j13g/manko/core/rounds/DynamicElimination.java:98-106 | the corrected tie keeps the round invariant and decides exactly the two sides |
| DynamicEliminations.IsPairingOrphaned | src/main/java/de/j13g/manko/core/rounds/DynamicElimination.java:199-221 | `isPairingOrphaned` throws `NoSuchPairingException` exactly for an unknown pairing, is false for an active one, and for a finished one is true exactly when a side is paired elsewhere or a non-pending side has another finished pairing |
| DynamicEliminations.ReplayPairing | src/main/java/de/j13g/manko/core/rounds/DynamicElimination.java:108-137 | `replayPairing` is false for an active pairing and throws `NoSuchPairingException`, `MissingEntrantException` or `OrphanedPairingException` exactly in the source's three cases, in that order; a replayed pairing is active again and both sides lose their results |
| DynamicEliminationProofs.ReplayPairingPreservesValid | src/main/java/de/j13g/manko/core/rounds/DynamicElimination.java:108-137 | in a valid round replaying fails only with those three errors, succeeds for a finished non-orphaned pairing of two entrants, and keeps the round invariant |
| DynamicEliminationProofs.ReplayKeepsValid | src/main/java/de/j13g/manko/core/rounds/DynamicElimination.java:125-134 | reactivating a finished pairing whose decided sides have no other finished pairing keeps the round invariant |
| DynamicEliminations.ClearEntrant | src/main/java/de/j13g/manko/core/rounds/DynamicElimination.java:140-156 | the first half of `resetEntrant`: a paired entrant's pairing is dropped and both sides become pending, a decided entrant loses its result and becomes pending, a floating result is dropped; the finished pairings are untouched |
| DynamicEliminations.Prune | src/main/java/de/j13g/manko/core/rounds/DynamicElimination.java:158-171 | the loop of `resetEntrant` drops exactly the listed finished pairings of the entrant whose other side has no (floating) result, and keeps the finished entrant set |
| DynamicEliminations.ResetEntrant | src/main/java/de/j13g/manko/core/rounds/DynamicElimination.java:139-174 | `resetEntrant` is false with no change for an entrant the round knows nothing about or a pending one; otherwise the entrant ends with no result, no floating result and no pairing, and the entrant set is unchanged |
| DynamicEliminationProofs.ResetIsPrune | src/main/java/de/j13g/manko/core/rounds/DynamicElimination.java:139-174 | `resetEntrant` is clearing the entrant followed by the pruning loop over its finished pairings in iteration order |
| DynamicEliminationProofs.ClearedIsSound | src/main/java/de/j13g/manko/core/rounds/DynamicElimination.java:140-156 | clearing an entrant keeps the partition of the entrants and takes exactly that entrant out of the decided and floating ones |
| DynamicEliminationProofs.PrunedKeepsBacked | src/main/java/de/j13g/manko/core/rounds/DynamicElimination.java:158-171 | after the pruning loop every finished pairing again has a side with a (possibly floating) result |
| DynamicEliminationProofs.ResetEntrantPreservesValid | src/main/java/de/j13g/manko/core/rounds/DynamicElimination.java:139-174 | in a valid round `resetEntrant` never fails and keeps the round invariant |
| DynamicEliminations.RemoveEntrant | src/main/java/de/j13g/manko/core/rounds/DynamicElimination.java:176-197 | `removeEntrant` is true exactly for an entrant of the round, which afterwards is neither pending, paired nor decided; a decided entrant's result moves to the floating results unchanged, and no entrant or floating result appears from nowhere |
| DynamicEliminationProofs.RemoveEntrantPreservesValid | src/main/java/de/j13g/manko/core/rounds/DynamicElimination.java:176-197 | in a valid round `removeEntrant` never fails and keeps the round invariant |
| SemiFinals.StaysClosed | src/main/java/de/j13g/manko/core/rounds/SemiFinal.java:13-20 | a semi-final whose round only comes to know entrants it already knew stays within its frozen original entrants, of which there are at most four |
| SemiFinals.Create | src/main/java/de/j13g/manko/core/rounds/SemiFinal.java:15-21 | the four-entrant constructor makes the four the original entrants, all pending, nobody decided |
| SemiFinals.FromSeq | src/main/java/de/j13g/manko/core/rounds/SemiFinal.java:23-29 | the collection constructor throws `IllegalArgumentException` exactly when the collection does not hold four entrants; otherwise its members are the original entrants, all pending |
| SemiFinals.AddEntrant | src/main/java/de/j13g/manko/core/rounds/SemiFinal.java:35-41 | `addEntrant` throws `NewEntrantsNotAllowedException` exactly for an entrant outside the original four; otherwise it is the elimination round's (corrected) `addEntrant` and keeps the semi-final valid |
| SemiFinals.ResetEntrant | src/main/java/de/j13g/manko/core/rounds/SemiFinal.java:43-47 | `resetEntrant` always throws `UnsupportedOperationException` |
| SemiFinals.RemoveEntrant | src/main/java/de/j13g/manko/core/rounds/DynamicElimination.java:176-197 | the inherited `removeEntrant` never fails, keeps the original entrants and validity, and is true exactly for an entrant of the round |
| SemiFinals.NextPairing | src/main/java/de/j13g/manko/core/rounds/DynamicElimination.java:46-59 | the inherited `nextPairing` fails exactly when the elimination round's does, and pairs two original entrants |
| SemiFinals.DeclareWinnerIn | src/main/java/de/j13g/manko/core/rounds/DynamicElimination.java:79-96 | the inherited `declareWinner(entrant, pairing)` fails with the round's error, else decides the pairing; validity is kept |
| SemiFinals.DeclareWinner | src/main/java/de/j13g/manko/core/rounds/DynamicElimination.java:61-77 | the inherited `declareWinner(entrant)` returns a pairing containing the winner, who is advanced; validity is kept |
| SemiFinals.DeclareTie | src/main/java/de/j13g/manko/core/rounds/DynamicElimination.java:98-106 | the inherited `declareTie` throws `NoSuchPairingException` exactly for a pairing that is not active; validity is kept |
| SemiFinals.ReplayPairing | src/main/java/de/j13g/manko/core/rounds/DynamicElimination.java:108-137 | the inherited `replayPairing` fails with the round's error, else keeps the original entrants and validity |
| SemiFinals.HasStateAboutOutlivesRemoval | src/main/java/de/j13g/manko/core/rounds/SemiFinal.java:49-52 | after a pending entrant is removed the semi-final still has state about it, while the elimination round's own `hasStateAbout` would say no |
| SemiFinals.HasStateAboutCovers | src/main/java/de/j13g/manko/core/rounds/SemiFinal.java:49-52 | whatever the elimination round has state about, the semi-final has too |
| SemiFinals.FinishedCounts | src/main/java/de/j13g/manko/core/rounds/SemiFinal.java:11-29 | a finished semi-final holds at most four results |
| Finals.Create | src/main/java/de/j13g/manko/core/rounds/Final.java:27-50 | the constructor throws `IllegalArgumentException` exactly when the third-place pairing shares an entrant with the first-place one; otherwise the third-place pairing (if any) is queued before the first-place one, the four sides are the entrants, nothing is played or placed, and the final is valid (pairings queued at most once, queued, active and finished pairings disjoint and all scheduled, entrants among the sides, placement slots sound) |
| Finals.PairingFor | src/main/java/de/j13g/manko/core/rounds/Final.java:229-232 | `getPairingForEntrant` yields the scheduled pairing holding the entrant, the first-place one exactly when the entrant is in it |
| Finals.ResetSides | src/main/java/de/j13g/manko/core/rounds/Final.java:61-66 | both sides of the pairing go back to `TBD`, no other placement changes, and the placement slots stay sound |
| Finals.Requeue | src/main/java/de/j13g/manko/core/rounds/Final.java:68-73 | putting a pairing back into the queue adds exactly that pairing and keeps the queue free of duplicates |
| Finals.AddEntrantAsWritten | src/main/java/de/j13g/manko/core/rounds/Final.java:52-78 | as written, `addEntrant` requeues the entrant's pairing whenever the pairing manager does not hold it, even if it is still queued |
| FinalProofs.AddEntrantAsWrittenQueuesTwice | src/main/java/de/j13g/manko/core/rounds/Final.java:68-73 | removing both sides of the first-place pairing and adding them back queues that pairing twice under the as-written code, breaking validity; the corrected `addEntrant` queues it once |
| Finals.AddEntrant | src/main/java/de/j13g/manko/core/rounds/Final.java:52-78 | corrected `addEntrant`: false and no change for an entrant; `InvalidEntrantException` for an entrant outside both pairings; otherwise the entrant is back, both sides of an unfinished pairing are `TBD`, and the pairing is queued again only when it is neither queued nor played |
| FinalProofs.AddEntrantPreservesValid | src/main/java/de/j13g/manko/core/rounds/Final.java:52-78 | `addEntrant` keeps the final valid |
| Finals.RemoveEntrant | src/main/java/de/j13g/manko/core/rounds/Final.java:80-105 | `removeEntrant` is true exactly for an entrant; for a finished pairing only the entrant set changes; otherwise the entrant is placed `NONE` and the other side wins the pairing's place (`FIRST` or `THIRD`) |
| FinalProofs.RemoveEntrantPreservesValid | src/main/java/de/j13g/manko/core/rounds/Final.java:80-105 | `removeEntrant` never fails on a valid final, keeps it valid, and takes an unfinished pairing out of both the queue and the pairing manager |
| FinalProofs.RemoveQueued | src/main/java/de/j13g/manko/core/rounds/Final.java:80-105 | removing an entrant whose pairing is queued removes exactly that pairing from the queue and changes only the two sides' placements |
| FinalProofs.AddBack | src/main/java/de/j13g/manko/core/rounds/Final.java:52-78 | adding back an entrant whose pairing is neither queued nor played requeues it and resets both sides to `TBD` |
| FinalProofs.RemoveThenAddRestores | src/main/java/de/j13g/manko/core/rounds/Final.java:80-105 | removing and re-adding an entrant whose pairing is queued restores the entrants and pairings, requeues the pairing at its place (third-place first, first-place last) and leaves both sides `TBD` |
| FinalProofs.UnstartedRemoveThenAdd | src/test/java/de/j13g/manko/core/rounds/FinalTest.java:224-234 | in an unstarted final, removing and re-adding any entrant gives back the same queue, entrants and all-`TBD` placements |
| FinalProofs.NewFinalRemoveThenAdd | src/test/java/de/j13g/manko/core/rounds/FinalTest.java:224-234 | for a new final of four different entrants, removing and re-adding any one leaves the third-place pairing first, the first-place pairing second and everyone `TBD` |
| FinalProofs.ForfeitThenReturnLeavesStaleSlot | src/main/java/de/j13g/manko/core/rounds/Final.java:87-97 | through the as-written placement manager a forfeit and return leaves the winner still registered as `FIRST` while it is `TBD`; through the corrected one the slot is free |
| Finals.NextPairing | src/main/java/de/j13g/manko/core/rounds/Final.java:107-116 | `nextPairing` throws `NoMorePairingsException` exactly for an empty queue; otherwise it takes the head of the queue and makes it active |
| FinalProofs.NextPairingPreservesValid | src/main/java/de/j13g/manko/core/rounds/Final.java:107-116 | on a valid final with a queued pairing `nextPairing` succeeds, activates the head and keeps the final valid |
| FinalProofs.StartNext | src/main/java/de/j13g/manko/core/rounds/Final.java:107-116 | with nothing active, `nextPairing` makes exactly the head active and changes only queue and pairings |
| Finals.ReplayPairing | src/main/java/de/j13g/manko/core/rounds/Final.java:118-131 | `replayPairing` is false for an active pairing, throws `NoSuchPairingException` exactly for an unknown one, and otherwise resets both sides to `TBD` without touching entrants or queue |
| FinalProofs.ReplayPairingPreservesValid | src/main/java/de/j13g/manko/core/rounds/Final.java:118-131 | on a valid final a replay fails only with `NoSuchPairingException`, reactivates the pairing and keeps the final valid |
| Finals.Award | src/main/java/de/j13g/manko/core/rounds/Final.java:145-154 | the winner of the first-place pairing is `FIRST` and the loser `SECOND`; the winner of the third-place pairing is `THIRD` and the loser `NONE`; nobody else's placement changes and the slots stay sound |
| Finals.DeclareWinnerIn | src/main/java/de/j13g/manko/core/rounds/Final.java:133-157 | `declareWinner(entrant, pairing)` throws `IllegalArgumentException`, `NoSuchEntrantException` or `NoSuchPairingException` exactly in the source's three cases, in order; otherwise the pairing is finished and the placements are awarded |
| FinalProofs.DeclareWinnerInPreservesValid | src/main/java/de/j13g/manko/core/rounds/Final.java:133-157 | a successful declaration keeps the final valid |
| Finals.DeclareWinner | src/main/java/de/j13g/manko/core/rounds/Final.java:159-172 | `declareWinner(entrant)` throws `NoSuchEntrantException` exactly for a non-entrant and `MissingPairingException` when the entrant's pairing is not active, otherwise declares it and returns that pairing |
| FinalProofs.DeclareWinnerPreservesValid | src/main/java/de/j13g/manko/core/rounds/Final.java:159-172 | on a valid final only those two errors occur, and the returned pairing is finished in a valid final |
| FinalProofs.DecideActive | src/main/java/de/j13g/manko/core/rounds/Final.java:133-172 | declaring a winner of the only active pairing finishes it, awards the placements and changes nothing else |
| FinalProofs.FinalStandings | src/main/java/de/j13g/manko/core/rounds/Final.java:145-154 | placing third, none, first and second in turn gives `getEntrantByPlacement` the three podium entrants and leaves the fourth `NONE` |
| FinalProofs.PlayedFinalPlacements | src/test/java/de/j13g/manko/core/rounds/FinalTest.java:238-245 | playing a new final (third-place pairing, then first-place pairing) gives first, second and third their places, the fourth `NONE`, two finished pairings and a finished final |
| Finals.ResetEntrant | src/main/java/de/j13g/manko/core/base/BaseRankingRound.java:7-10 | `resetEntrant` always throws `UnsupportedOperationException` |
| Finals.DeclareTie | src/main/java/de/j13g/manko/core/base/BaseRankingRound.java:12-15 | `declareTie` always throws `UnsupportedOperationException` |
| Finals.SetFirstPlacePairingFirst | src/main/java/de/j13g/manko/core/formats/DefaultFormat.java:134-138 | the first-place pairing moves to the head of the queue when queued; the queue keeps its pairings, length and validity and nothing else changes |
| Finals.SetThirdPlacePairingFirst | src/main/java/de/j13g/manko/core/formats/DefaultFormat.java:134-138 | the third-place pairing moves to the head of the queue when there is one and it is queued; the queue keeps its pairings, length and validity and nothing else changes |
| RoundRobinFinals.Schedule | src/main/java/de/j13g/manko/core/rounds/RoundRobinFinal.java:40-43 | the original pairings are ab, ac and bc, each once, in the constructor's order |
| RoundRobinFinals.Create | src/main/java/de/j13g/manko/core/rounds/RoundRobinFinal.java:36-44 | the constructor makes the three the entrants and all three original pairings outstanding, with nothing played, won, forfeited or scored; the round is not finished |
| RoundRobinFinalProofs.CreateIsValid | src/main/java/de/j13g/manko/core/rounds/RoundRobinFinal.java:36-44 | the new round of three different entrants is valid: every original pairing is exactly one of outstanding, active, won or forfeited, outstanding and active pairings are between present entrants, and every score is the number of points credited to that entrant |
| RoundRobinFinals.PairsOf | src/main/java/de/j13g/manko/core/rounds/RoundRobinFinal.java:53 | an entrant's pairings are among the original ones |
| RoundRobinFinals.Unfinished | src/main/java/de/j13g/manko/core/rounds/RoundRobinFinal.java:51-58 | `getUnfinishedPairingsByEntrant` is exactly the entrant's original pairings that are not finished |
| RoundRobinFinalProofs.MembersHavePairings | src/main/java/de/j13g/manko/core/rounds/RoundRobinFinal.java:87-88 | an entrant has original pairings exactly when it is one of the three |
| RoundRobinFinalProofs.HasStateAboutIff | src/main/java/de/j13g/manko/core/rounds/RoundRobinFinal.java:339-342 | `hasStateAbout` holds exactly for the three original entrants |
| RoundRobinFinals.RemoveEntrantAsWritten | src/main/java/de/j13g/manko/core/rounds/RoundRobinFinal.java:60-81 | as written, `removeEntrant` is true exactly for an entrant, which leaves; each unfinished pairing of it stops being outstanding and its opponent gets a point, even for a pairing already given away when the opponent left |
| RoundRobinFinals.Retire | src/main/java/de/j13g/manko/core/rounds/RoundRobinFinal.java:67-77 | the loop of `removeEntrant` takes exactly the leaver's unfinished pairings out of the outstanding set and keeps it a valid shuffled set |
| RoundRobinFinalScenarios.RemoveAsWrittenScores | src/main/java/de/j13g/manko/core/rounds/RoundRobinFinal.java:67-77 | the as-written removal raises each score by the number of the leaver's unfinished pairings against that entrant |
| RoundRobinFinals.AddEntrantAsWritten | src/main/java/de/j13g/manko/core/rounds/RoundRobinFinal.java:83-101 | as written, `addEntrant` is false for an entrant, throws `NewEntrantsNotAllowedException` exactly for someone outside the three, and otherwise makes every unfinished pairing of the entrant outstanding again and takes a point from each opponent, present or not |
| RoundRobinFinals.Restore | src/main/java/de/j13g/manko/core/rounds/RoundRobinFinal.java:90-97 | the loop of `addEntrant` puts exactly the returning entrant's unfinished pairings back into the outstanding set and keeps it a valid shuffled set |
| RoundRobinFinalScenarios.AddAsWrittenScores | src/main/java/de/j13g/manko/core/rounds/RoundRobinFinal.java:90-97 | the as-written return lowers each score by the number of the returner's unfinished pairings against that entrant |
| RoundRobinFinalScenarios.ReentryAsWrittenState | src/main/java/de/j13g/manko/core/rounds/RoundRobinFinal.java:60-101 | with the as-written code, after c leaves, b leaves and b comes back, both of b's pairings are outstanding again although c is gone, and a and b have a point each |
| RoundRobinFinalScenarios.ReentryAsWrittenScoresThree | src/main/java/de/j13g/manko/core/rounds/RoundRobinFinal.java:129-131 | b then wins both outstanding pairings and scores three, above `MAX_SCORE`, which the source asserts is never exceeded |
| RoundRobinFinals.RemoveEntrant | src/main/java/de/j13g/manko/core/rounds/RoundRobinFinal.java:60-81 | corrected `removeEntrant`: true exactly for an entrant, which leaves; its pairings that are neither finished nor forfeited already stop being outstanding or active and are forfeited to the opponent, and nothing finished changes |
| RoundRobinFinalProofs.RemoveEntrantScores | src/main/java/de/j13g/manko/core/rounds/RoundRobinFinal.java:67-77 | the corrected removal gives each opponent one point per forfeited pairing and changes no other score |
| RoundRobinFinalProofs.RemoveEntrantPreservesValid | src/main/java/de/j13g/manko/core/rounds/RoundRobinFinal.java:60-81 | the corrected removal keeps the round valid, and afterwards no outstanding or active pairing involves the leaver |
| RoundRobinFinals.AddEntrant | src/main/java/de/j13g/manko/core/rounds/RoundRobinFinal.java:83-101 | corrected `addEntrant`: false and no change for an entrant, `NewEntrantsNotAllowedException` exactly for someone outside the three; otherwise the entrant is back, and its forfeited pairings against a present opponent are outstanding again and no longer forfeited, nothing played changes |
| RoundRobinFinals.Revoke | src/main/java/de/j13g/manko/core/rounds/RoundRobinFinal.java:90-97 | the corrected loop of `addEntrant` also puts exactly the returning pairings back, keeping the outstanding set valid |
| RoundRobinFinalProofs.AddEntrantScores | src/main/java/de/j13g/manko/core/rounds/RoundRobinFinal.java:90-97 | the corrected return takes from each entrant exactly the points it was given for the pairings that come back |
| RoundRobinFinalProofs.AddEntrantPreservesValid | src/main/java/de/j13g/manko/core/rounds/RoundRobinFinal.java:83-101 | on a valid round the return fails exactly for someone outside the three and keeps the round valid |
| RoundRobinFinalProofs.RemoveThenAddRestores | src/main/java/de/j13g/manko/core/rounds/RoundRobinFinal.java:60-101 | leaving and coming back restores the entrants, winners, forfeits and every score; the outstanding pairings gain the cancelled active pairing and nothing finished changes |
| RoundRobinFinalScenarios.WinnerLeavesAndComesBack | src/test/java/de/j13g/manko/core/rounds/RoundRobinFinalTest.java:34-48 | whichever pairing is drawn first, its winner leaving and coming back leaves the winner one point and the other two none |
| RoundRobinFinalScenarios.ReentryState | src/main/java/de/j13g/manko/core/rounds/RoundRobinFinal.java:60-101 | with the corrected code the same departures and return leave only ab outstanding, bc forfeited to b, one point each for a and b, the round valid and no score above two |
| RoundRobinFinals.NextPairing | src/main/java/de/j13g/manko/core/rounds/RoundRobinFinal.java:103-113 | `nextPairing` throws `NoMorePairingsException` once finished and `UnfinishedPairingsException` while a pairing is active; otherwise a random outstanding pairing becomes active and nothing else but the outstanding set changes |
| RoundRobinFinalProofs.NextPairingPreservesValid | src/main/java/de/j13g/manko/core/rounds/RoundRobinFinal.java:103-113 | on a valid round `nextPairing` succeeds exactly when the round is not finished and nothing is active, then exactly the drawn pairing is active and the round stays valid |
| RoundRobinFinals.DeclareWinnerIn | src/main/java/de/j13g/manko/core/rounds/RoundRobinFinal.java:115-132 | `declareWinner(entrant, pairing)` throws `IllegalArgumentException`, `NoSuchEntrantException` or `NoSuchPairingException` exactly in the source's three cases, in order; otherwise the pairing is finished, its winner recorded and only the winner's score rises by one |
| RoundRobinFinalProofs.DeclareWinnerInPreservesValid | src/main/java/de/j13g/manko/core/rounds/RoundRobinFinal.java:115-132 | a successful declaration keeps the round valid, so the asserted score bound holds |
| RoundRobinFinals.DeclareWinner | src/main/java/de/j13g/manko/core/rounds/RoundRobinFinal.java:134-146 | `declareWinner(entrant)` throws `NoSuchEntrantException` for a non-entrant and `MissingPairingException` for an unpaired one, otherwise declares the entrant's active pairing |
| RoundRobinFinalProofs.DeclareWinnerPreservesValid | src/main/java/de/j13g/manko/core/rounds/RoundRobinFinal.java:134-146 | on a valid round only those two errors occur and the round stays valid |
| RoundRobinFinals.ReplayPairing | src/main/java/de/j13g/manko/core/rounds/RoundRobinFinal.java:148-175 | `replayPairing` is false for an active pairing and throws `NoSuchPairingException`, `MissingEntrantException` or `OrphanedPairingException` in the source's cases; a replay removes the pairing's winner, takes the winner's point, and makes the pairing active instead of finished |
| RoundRobinFinalProofs.ReplayPairingGoesAhead | src/main/java/de/j13g/manko/core/rounds/RoundRobinFinal.java:148-175 | a finished pairing of two present, unpaired entrants is replayed |
| RoundRobinFinalProofs.ReplayPairingPreservesValid | src/main/java/de/j13g/manko/core/rounds/RoundRobinFinal.java:148-175 | on a valid round a replay fails only with those three errors and keeps the round valid, so the asserted score floor holds |
| RoundRobinFinals.ResetEntrant | src/main/java/de/j13g/manko/core/rounds/RoundRobinFinal.java:177-181 | `resetEntrant` always throws `UnsupportedOperationException` |
| RoundRobinFinals.DeclareTie | src/main/java/de/j13g/manko/core/rounds/RoundRobinFinal.java:183-187 | `declareTie` always throws `UnsupportedOperationException` |
| RoundRobinFinals.HasWon | src/main/java/de/j13g/manko/core/rounds/RoundRobinFinal.java:327-331 | `hasWon` always throws `UnsupportedOperationException` |
| RoundRobinFinals.HasLost | src/main/java/de/j13g/manko/core/rounds/RoundRobinFinal.java:333-337 | `hasLost` always throws `UnsupportedOperationException` |
| RoundRobinFinalProofs.ScoresWithinBounds | src/main/java/de/j13g/manko/core/rounds/RoundRobinFinal.java:21-23 | in a valid round every score lies between `MIN_SCORE` and `MAX_SCORE`, and outsiders score zero |
| RoundRobinFinalProofs.FinishedScoresSumToThree | src/main/java/de/j13g/manko/core/rounds/RoundRobinFinal.java:225-227 | once a valid round is finished, the scores of the three original entrants add up to the number of original pairings, as the comment promises |
| RoundRobinFinalProofs.FinishedScoreShapes | src/main/java/de/j13g/manko/core/rounds/RoundRobinFinal.java:191-192 | a finished valid round has scores 0, 1 and 2 in some order, or 1, 1 and 1 |
| RoundRobinFinals.GetPlacementAsWritten | src/main/java/de/j13g/manko/core/rounds/RoundRobinFinal.java:189-249 | as written, two wins are `FIRST` and anything else is `TBD` while the round is running; once finished the score is compared with the entrants still present |
| RoundRobinFinalScenarios.PlacementAfterDepartureAsWritten | src/main/java/de/j13g/manko/core/rounds/RoundRobinFinal.java:213-247 | after c leaves and a beats b, the as-written comparison sees only a and reports b `TBD` in a finished round |
| RoundRobinFinals.GetPlacement | src/main/java/de/j13g/manko/core/rounds/RoundRobinFinal.java:189-249 | corrected `getPlacement`: two wins are `FIRST`, a running round gives `TBD` otherwise, and in a finished round no win is `THIRD`, the comparison being with both other original entrants |
| RoundRobinFinalScenarios.PlacementAfterDeparture | src/main/java/de/j13g/manko/core/rounds/RoundRobinFinal.java:189-249 | with the correction, the same run places a first, b second and c third |
| RoundRobinFinalProofs.PlacementFollowsScores | src/main/java/de/j13g/manko/core/rounds/RoundRobinFinal.java:189-249 | in a finished valid round each of the three is `FIRST` exactly with two wins, `THIRD` exactly with none, `NONE` exactly when all have one, `SECOND` otherwise, and never `TBD` |
| RoundRobinFinalProofs.PlacementsDistinct | src/main/java/de/j13g/manko/core/rounds/RoundRobinFinal.java:251-258 | in a finished valid round no two of the three share a placement other than `NONE`, as `getStandings` asserts |
| RoundRobinFinalProofs.PlacementAsWrittenWhileAllPresent | src/main/java/de/j13g/manko/core/rounds/RoundRobinFinal.java:189-249 | while all three are present the as-written placement agrees with the corrected one |
| RoundRobinFinalProofs.IsTieIff | src/main/java/de/j13g/manko/core/rounds/RoundRobinFinal.java:349-366 | on a valid round `isTie` holds exactly when the round is finished and either nobody is present or all three are present with one win each; the source's ranking against present entrants makes a round someone has left no tie |
| RoundRobinFinalProofs.TieKeepsAllThree | src/main/java/de/j13g/manko/core/rounds/RoundRobinFinal.java:209-234 | an entrant the source's ranking calls tied (no placement) has two others with one win still present, so all three are in the round |
| RoundRobinFinalProofs.HasEntrantResultIff | src/main/java/de/j13g/manko/core/rounds/RoundRobinFinal.java:318-325 | on a valid round `hasEntrantResult` holds exactly when some finished pairing contains the entrant |
| Rounds.AddEntrant | src/main/java/de/j13g/manko/core/base/RoundHandle.java:21 | `addEntrant` goes to the round at hand and keeps its kind; true means the entrant was not in the round and now is, false means no change |
| Rounds.RemoveEntrant | src/main/java/de/j13g/manko/core/base/RoundHandle.java:29 | `removeEntrant` keeps the round's kind; true means the entrant was in the round and is gone |
| Rounds.ResetEntrant | src/main/java/de/j13g/manko/core/base/RoundHandle.java:37 | `resetEntrant` is unsupported in every round but the elimination round, and never changes who is in the round |
| Rounds.NextPairing | src/main/java/de/j13g/manko/core/base/RoundHandle.java:46 | `nextPairing` keeps the round's kind and its entrants |
| Rounds.ReplayPairing | src/main/java/de/j13g/manko/core/base/RoundHandle.java:57 | `replayPairing` of an active pairing is false with no change, in every kind of round |
| Rounds.DeclareWinnerIn | src/main/java/de/j13g/manko/core/base/RoundHandle.java:66 | `declareWinner(entrant, pairing)` refuses an entrant outside the pairing with `IllegalArgumentException`; on success the pairing is finished and the entrants are kept |
| Rounds.DeclareWinner | src/main/java/de/j13g/manko/core/base/RoundHandle.java:78 | `declareWinner(entrant)` returns a pairing of the entrant, keeping kind and entrants |
| Rounds.DeclareTie | src/main/java/de/j13g/manko/core/base/RoundHandle.java:85 | `declareTie` is unsupported in the final rounds and keeps the entrants |
| Rounds.AddEntrantPreservesValid | src/main/java/de/j13g/manko/core/base/RoundHandle.java:21 | every kind of round stays valid under `addEntrant` |
| Rounds.RemoveEntrantPreservesValid | src/main/java/de/j13g/manko/core/base/RoundHandle.java:29 | `removeEntrant` never fails on a valid round and keeps it valid |
| Rounds.ResetEntrantPreservesValid | src/main/java/de/j13g/manko/core/base/RoundHandle.java:37 | `resetEntrant` keeps every valid round valid |
| Rounds.NextPairingPreservesValid | src/main/java/de/j13g/manko/core/base/RoundHandle.java:46 | `nextPairing` keeps every valid round valid |
| Rounds.FinalDrawPreservesValid | src/main/java/de/j13g/manko/core/rounds/Final.java:107-116 | a successful `nextPairing` of the final keeps it valid |
| Rounds.ReplayPairingPreservesValid | src/main/java/de/j13g/manko/core/base/RoundHandle.java:57 | `replayPairing` keeps every valid round valid |
| Rounds.DeclareWinnerInPreservesValid | src/main/java/de/j13g/manko/core/base/RoundHandle.java:66 | `declareWinner(entrant, pairing)` keeps every valid round valid |
| Rounds.DeclareWinnerPreservesValid | src/main/java/de/j13g/manko/core/base/RoundHandle.java:78 | `declareWinner(entrant)` keeps every valid round valid |
| Rounds.DeclareTiePreservesValid | src/main/java/de/j13g/manko/core/base/RoundHandle.java:85 | `declareTie` keeps every valid round valid |
| DefaultFormats.InitialRoundIsFresh | src/main/java/de/j13g/manko/core/formats/DefaultFormat.java:24-27 | the first round is an empty, valid, unstarted elimination round |
| DefaultFormats.NextFromElimination | src/main/java/de/j13g/manko/core/formats/DefaultFormat.java:56-75 | after an elimination round, more than four advanced entrants play another elimination round, four a semi-final, three a round-robin final, two a final, and fewer raise `FinalRoundException` |
| DefaultFormats.NextFromEliminationIsFresh | src/main/java/de/j13g/manko/core/formats/DefaultFormat.java:56-75 | the next round has exactly the advanced entrants, has not started and is valid |
| DefaultFormats.EliminationNextIsValid | src/main/java/de/j13g/manko/core/formats/DefaultFormat.java:56-75 | whatever round follows an elimination round is valid and has not started |
| DefaultFormats.NextFromSemiFinal | src/main/java/de/j13g/manko/core/formats/DefaultFormat.java:77-151 | after a semi-final, more than two advanced or eliminated is a `RuntimeException`, at most one of each is `FinalRoundException`, two advanced and no eliminated fails on an empty iterator, and any round made is a final |
| DefaultFormats.WinnersAndLosersMeet | src/test/java/de/j13g/manko/core/formats/DefaultFormatTest.java:95-103 | two winners and two losers give a final of the winners for first place and the losers for third, third-place first, unstarted and valid |
| DefaultFormats.Predetermined | src/main/java/de/j13g/manko/core/formats/DefaultFormat.java:109-132 | the pairing of the lone side with a departed entrant becomes the final's first-place pairing when one winner is left and its third-place pairing when two winners are left, the other semi-final pairing taking the remaining place; with any other number of winners left the final refuses the pairing twice (`IllegalArgument`); building it never reports an unfinished round |
| DefaultFormats.PredeterminedPlays | src/main/java/de/j13g/manko/core/formats/DefaultFormat.java:132-148 | the final built with the lone side's pairing played at once has it finished with the lone side winning (`FIRST`/`SECOND` or `THIRD`/`NONE`), only the other pairing queued, and is valid |
| DefaultFormats.PredeterminedIsValid | src/main/java/de/j13g/manko/core/formats/DefaultFormat.java:132-148 | whenever building that final succeeds, it is valid with exactly the predetermined pairing finished |
| DefaultFormats.NextFromSplit | src/main/java/de/j13g/manko/core/formats/DefaultFormat.java:96-151 | with two on one side and one or none on the other, no eliminated entrant at all makes the iterator run out (`NoSuchElementException`); any round made is a final, and an unfinished round is never reported |
| DefaultFormats.NextFromSplitIsValid | src/main/java/de/j13g/manko/core/formats/DefaultFormat.java:96-151 | a final made from a split semi-final is valid and already started, and only a split of two and one gets there |
| DefaultFormats.LoneWinnerTakesFirst | src/test/java/de/j13g/manko/core/formats/DefaultFormatTest.java:105-122 | with one winner left, the next round pairs that winner with a departed entrant, already decided `FIRST`/`SECOND`, and only the losers' pairing is left to play |
| DefaultFormats.LoneLoserTakesThird | src/test/java/de/j13g/manko/core/formats/DefaultFormatTest.java:124-141 | with one loser left, that loser is `THIRD` against a departed entrant at `NONE`, and only the winners' pairing is left to play |
| DefaultFormats.NoWinnerLeftFails | src/main/java/de/j13g/manko/core/formats/DefaultFormat.java:96-151 | a semi-final left with both losers and no winner yields no next round: the lone-side pairing meets the other pairing and the final refuses them |
| DefaultFormats.NextFromSemiFinalIsValid | src/main/java/de/j13g/manko/core/formats/DefaultFormat.java:77-151 | every final made from a semi-final is valid, and has started exactly for a split of two and one |
| DefaultFormats.Rematch | src/main/java/de/j13g/manko/core/formats/DefaultFormat.java:36-42 | a replayed round-robin final only has entrants of the tied one; with fewer than three entrants the iterator runs out (`NoSuchElementException`) |
| DefaultFormats.RematchIsValid | src/main/java/de/j13g/manko/core/formats/DefaultFormat.java:36-42 | the replayed round-robin final is valid and unstarted |
| DefaultFormats.DepartureEndsRoundRobinFinal | src/main/java/de/j13g/manko/core/formats/DefaultFormat.java:36-47 | after a finished round-robin final that some of the three have left, `createNextRound` throws `FinalRoundException` while anyone is still in it, whatever the scores, and the rematch's `NoSuchElementException` once everyone has left |
| DefaultFormats.TieIsPlayedAgain | src/main/java/de/j13g/manko/core/formats/DefaultFormat.java:36-42 | a tie among three entrants gives a new round-robin final of the same three, unstarted, valid, with every score zero |
| DefaultFormats.CreateNextRound | src/main/java/de/j13g/manko/core/formats/DefaultFormat.java:29-54 | `createNextRound` throws `RoundNotFinishedException` exactly for an unfinished round and `FinalRoundException` after a final or a round-robin final that `isTie` does not call tied; a semi-final leads to a final and an elimination round as above |
| DefaultFormats.NextRoundIsValid | src/main/java/de/j13g/manko/core/formats/DefaultFormat.java:29-54 | every next round is valid, and has started exactly after a semi-final split two and one |
| Tournaments.CreateIsFresh | src/main/java/de/j13g/manko/core/Tournament.java:19-22 | a new tournament has the format's initial round, empty and unstarted, and no previous round |
| Tournaments.NextRound | src/main/java/de/j13g/manko/core/Tournament.java:29-38 | `nextRound` throws `RoundNotFinishedException` exactly when the current round is not finished and `FinalRoundException` after a finished final; on success the old current round becomes the previous one |
| Tournaments.PreviousRound | src/main/java/de/j13g/manko/core/Tournament.java:40-52 | `previousRound` throws `InitialRoundException` exactly without a previous round and `AlreadyStartedException` exactly when the current round has pairings; otherwise the previous round is current again and there is no previous one |
| Tournaments.NextThenPrevious | src/main/java/de/j13g/manko/core/Tournament.java:29-52 | going to the next round and straight back restores the round, unless the next round started at once |
| Tournaments.NoWayBackAfterPredetermined | src/main/java/de/j13g/manko/core/Tournament.java:40-52 | after a semi-final split two and one the way back is refused with `AlreadyStartedException` |
| Tournaments.PreviousTwiceFails | src/main/java/de/j13g/manko/core/Tournament.java:40-52 | going back twice in a row always fails with `InitialRoundException` |
| Tournaments.WithCurrent | src/main/java/de/j13g/manko/core/Tournament.java:54-102 | an operation on the current round keeps the previous round |
| Tournaments.AddEntrant | src/main/java/de/j13g/manko/core/Tournament.java:54-57 | `addEntrant` goes to the current round and keeps the previous one |
| Tournaments.RemoveEntrant | src/main/java/de/j13g/manko/core/Tournament.java:59-62 | `removeEntrant` goes to the current round and keeps the previous one |
| Tournaments.ResetEntrant | src/main/java/de/j13g/manko/core/Tournament.java:64-67 | `resetEntrant` is unsupported outside an elimination round and keeps the entrants |
| Tournaments.NextPairing | src/main/java/de/j13g/manko/core/Tournament.java:69-74 | `nextPairing` goes to the current round, keeping its entrants and the previous round |
| Tournaments.ReplayPairing | src/main/java/de/j13g/manko/core/Tournament.java:76-81 | `replayPairing` of an active pairing is false with no change |
| Tournaments.DeclareWinnerIn | src/main/java/de/j13g/manko/core/Tournament.java:83-88 | `declareWinner(entrant, pairing)` refuses an entrant outside the pairing and on success finishes the pairing |
| Tournaments.DeclareWinner | src/main/java/de/j13g/manko/core/Tournament.java:90-95 | `declareWinner(entrant)` returns a pairing of the entrant |
| Tournaments.DeclareTie | src/main/java/de/j13g/manko/core/Tournament.java:97-102 | `declareTie` is unsupported in the final rounds |
| Tournaments.EntrantOperationsPreserveValid | src/main/java/de/j13g/manko/core/Tournament.java:54-67 | adding, removing and resetting entrants keep the tournament's rounds valid |
| Tournaments.PairingOperationsPreserveValid | src/main/java/de/j13g/manko/core/Tournament.java:69-102 | drawing, replaying and tying keep the tournament's rounds valid |
| Tournaments.WinnerOperationsPreserveValid | src/main/java/de/j13g/manko/core/Tournament.java:83-95 | declaring winners keeps the tournament's rounds valid |
| Tournaments.RoundChangesPreserveValid | src/main/java/de/j13g/manko/core/Tournament.java:29-52 | moving to the next or previous round keeps the tournament's rounds valid |

## Left out

- The Minecraft mod around the core is not part of this model: the `fabric` commands, argument types and `Player`, and `Manko`. It is I/O and glue.
- The older `io.github.vonas.manko.core` and `io.github.vonas.tournament` packages are not modelled. They are superseded by `de.j13g.manko.core`. `ShuffledSet`, which still lives in `io.github.vonas.manko.util`, is modelled.
- Java serialisation is not modelled: `Serializable`, `ShuffledSet.initTransient` and `readObject`. The model has no byte form.
- Interfaces and base classes are not modelled: `RoundHandle`, `RoundManager`, `EliminationRound`, `RankingRound`, `BaseRankingRound`, `FinalRound`, `BaseSet`, `BaseUniformPairBiSet` and `Identifiable`. Only the behaviour they pass on is modelled, through the `Rounds.Round` sum type.
- Getters that return a field or a copy of it have no rows of their own. These are `getEntrants`, `getActivePairings`, `getFinishedPairings`, `getAdvancedEntrants`, `getEliminatedEntrants`, `getPendingEntrants`, `getUpcomingPairings`, `getOutstandingPairings`, `getPairings`, `getScore`, `getLastPairing` and `PairingManager.getActivePairingIterator`. Each is a projection of the model's state.
- `hashCode` of `Pair` and of `Identifiable` is not modelled. Entrants and pairings are compared by value.
- `RoundRobinFinal.getStandings` is not modelled as a collection. Only the property its assertion checks is modelled: no two entrants share a podium placement (`RoundRobinFinalProofs.PlacementsDistinct`).
- `RoundRobinFinal.getEntrantByPlacement` is not modelled on its own. It searches the entrants with `getPlacement`, which is modelled.
- Java `assert` statements are not modelled as run-time checks, as with assertions disabled. The modelling choice on assertions says which ones become lemmas or findings.
- DynamicEliminations.NextPairing, DynamicEliminations.ReplayPairing, Finals.NextPairing and RoundRobinFinals.NextPairing: the state a failing call leaves behind is not modelled. The source changes the round before a step that can throw. The model returns the thrown error without that state: `IllegalArgument` from `registerPairing` or `pairings.add`, or `Fault` for the empty draw of `DynamicElimination.nextPairing` (`DynamicElimination.java:55-57`).
  - `DynamicElimination.nextPairing` (`DynamicElimination.java:51-53`) draws two entrants before `registerPairing` can throw.
  - `DynamicElimination.replayPairing` (`DynamicElimination.java:128-133`) resets both results, removes the pairing and takes both sides out of the pending entrants before `registerPairing`.
  - `Final.nextPairing` (`Final.java:112-113`) removes the head of the queue before `pairings.add`.
  - `RoundRobinFinal.nextPairing` (`RoundRobinFinal.java:110-111`) draws an outstanding pairing before `pairings.add`.

  Only a broken round reaches those throws. The preservation lemmas (`NextPairingPreservesValid`, `ReplayPairingPreservesValid` of each round) show that a valid round either succeeds or fails on a check made before any change.
- `java.util.Random` becomes the parameter `rng`. The iteration order of hash sets becomes the parameter `order`. Neither is modelled further.
- ScoreManagers.AddScore: Java `int` overflow is not modelled. Scores are unbounded integers, and in a valid round-robin final a score stays between 0 and 2.
- `DefaultFormat` calls `setFirstPlacePairingFirst` and `setThirdPlacePairingFirst` on `Final`, but `Final.java` does not define them. They are modelled as moving that pairing to the front of the queue (`Finals.SetFirstPlacePairingFirst`, `Finals.SetThirdPlacePairingFirst`).
- `DefaultFormatTest` calls `hasWon` and `hasLost` on a `Final`, which `Final.java` does not define. Those calls are not part of this model, and the placements they would read are stated directly instead.
- `DynamicElimination.java` imports `PairingManager` and `ResultsManager` from `de.j13g.manko.core`, and `SemiFinal` reads the private `entrants` of its parent class. The model uses the managers of `de.j13g.manko.core.managers` and gives `SemiFinal` its parent's state.
- `FinalTest` (lines 84-86) expects `NewEntrantsNotAllowedException` for an outsider. The code (`Final.java:56-57`) throws `InvalidEntrantException`, and the model follows the code.
- `FinalTest` (lines 172-176) expects `MissingEntrantException` when a pairing is replayed after a side left. `Final.replayPairing` (`Final.java:118-131`) does not check for that, and the model follows the code.
- The semi-final splits of two and none (no loser left, or no winner left) fail inside `DefaultFormat.createNextRound`: an empty iterator, or a final whose two pairings meet. The model reproduces those failures (`DefaultFormats.NextFromSplit`, `DefaultFormats.NoWinnerLeftFails`). No intended behaviour is evident, so no correction is proposed.
- RoundRobinFinalProofs.FinishedScoresSumToThree: states the total over the three original entrants, as the comment at `RoundRobinFinal.java:225-226` describes. The assertion at line 227 sums only over the entrants still in the round. That sum falls short when an entrant who had won a pairing has left, which is the same defect as the placement finding below. The as-written sum is not stated as a lemma.

## Findings

| source | as written | input that shows it | evidently intended | confidence | as-written member | corrected member |
|---|---|---|---|---|---|---|
| src/main/java/io/github/vonas/manko/util/ShuffledSet.java:43-66 | `removeRandom` discards a popped tombstone but leaves it in `removedElements`. A later `add` of that element then skips the list, so the element can never be drawn again | add x, remove x, `removeRandom` (pops the tombstone and throws), add x: x is a member, yet `removeRandom` throws `EmptySetException` | a popped tombstone leaves `removedElements` too, so a member is always drawable | not executed | ShuffledSets.RemoveRandomAsWritten, ShuffledSets.AsWrittenLosesReaddedMember | ShuffledSets.RemoveRandom |
| src/main/java/de/j13g/manko/core/managers/PlacementManager.java:16-21, 44-48 | `setPlacement` stores the new placement but never clears the winner slot of the old one | set e to `FIRST`, then to `TBD`: `getEntrantByPlacement(FIRST)` still returns e | the old podium slot is freed when the placement changes | not executed | PlacementManagers.SetPlacementAsWritten, PlacementManagers.SetPlacementAsWrittenKeepsStaleSlot | PlacementManagers.SetPlacement, PlacementManagers.SetPlacementFreesOldSlot |
| src/main/java/de/j13g/manko/core/rounds/DynamicElimination.java:36-39 | `addEntrant` of an entrant with a floating result moves the result back but does not put the entrant back into `entrants` | two entrants, pair them, the first wins, remove the winner, add it back: it has a result but is not an entrant, and the count at line 325-326 is off by one | the returning entrant is an entrant again, with its result | not executed | DynamicEliminations.AddEntrantAsWritten, DynamicEliminationProofs.AddEntrantAsWrittenBreaksCounts, DynamicEliminationProofs.AddEntrantAsWrittenBreaksReachableRound | DynamicEliminations.AddEntrant, DynamicEliminationProofs.AddEntrantPreservesValid |
| src/main/java/de/j13g/manko/core/rounds/DynamicElimination.java:98-106 | `declareTie` finishes the pairing without a result for either side | any active pairing of a valid round: after the tie both sides are neither pending, paired nor decided, and the count at line 325-326 is two short | a tie gives both sides a result (both are eliminated), so every entrant keeps a status | not executed | DynamicEliminations.DeclareTieAsWritten, DynamicEliminationProofs.DeclareTieAsWrittenBreaksCounts | DynamicEliminations.DeclareTie, DynamicEliminationProofs.DeclareTiePreservesValid |
| src/main/java/de/j13g/manko/core/rounds/DynamicElimination.java:322-324 | the first count `finishPairing` asserts counts every entrant that ever finished a pairing, including those who have left | a beats b, b is removed, then c beats x: the asserted sum is one more than the number of entrants | the count over the round's results (line 325-326), which holds in every valid round | not executed | DynamicEliminationProofs.FinishedEntrantCountFails | DynamicEliminationProofs.PartitionCounts |
| src/main/java/de/j13g/manko/core/rounds/RoundRobinFinal.java:83-101 | `addEntrant` puts back every unfinished pairing of the returning entrant, even one against an entrant who has left | a, b, c; c leaves, b leaves, b returns, b wins both outstanding pairings: b scores three, above `MAX_SCORE` (line 129-131) | only pairings against an entrant still in the round come back, and the points a departure credited are taken back | not executed | RoundRobinFinals.AddEntrantAsWritten, RoundRobinFinals.RemoveEntrantAsWritten, RoundRobinFinalScenarios.ReentryAsWrittenScoresThree | RoundRobinFinals.AddEntrant, RoundRobinFinals.RemoveEntrant, RoundRobinFinalScenarios.ReentryState |
| src/main/java/de/j13g/manko/core/rounds/Final.java:68-73 | `addEntrant` requeues the entrant's pairing whenever the pairing manager does not hold it, even when the pairing is still queued | a final of a and b; remove a, remove b, add a, add b: the pairing is queued twice | a pairing already in the queue is not queued again | not executed | Finals.AddEntrantAsWritten, FinalProofs.AddEntrantAsWrittenQueuesTwice | Finals.AddEntrant, FinalProofs.AddEntrantPreservesValid |
| src/main/java/de/j13g/manko/core/managers/PairingManager.java:137-140 | `hasFinishedEntrant` compares the set `findByElement` returns with `null`, which it never is | an empty manager: the check answers true | true exactly when a finished pairing contains the entrant | not executed | PairingManagers.HasFinishedEntrantAsWritten, PairingManagers.HasFinishedEntrantAsWrittenIsWrong | PairingManagers.HasFinishedEntrant |
| src/main/java/de/j13g/manko/core/rounds/RoundRobinFinal.java:213-247 | in a finished round `getPlacement` ranks only against entrants still in the round, so a departed entrant's opponent falls through to `TBD` | a, b, c; c leaves, then a beats b: the round is finished and b's placement is `TBD` | the departed entrant's forfeits count as results, giving a first, b second and c third | not executed | RoundRobinFinals.GetPlacementAsWritten, RoundRobinFinalScenarios.PlacementAfterDepartureAsWritten | RoundRobinFinals.GetPlacement, RoundRobinFinalScenarios.PlacementAfterDeparture |
