# Company Communicator: team lookup and AD-group authorization

A Dafny model of two pieces of decision logic in the Company Communicator
Teams app.

- **Team data repository** (`TeamDataRepository`). It looks up team entities
  by row key in batches of at most 20 ids, one filtered table query per batch.
  It returns the sorted names of those teams. It also returns the whole team
  partition as a `SortedSet` ordered by team name. That set's comparer looks
  only at the name, so two teams with the same name collapse into one.
- **AD-group authorization handler** (`ADGroupHandler`). It gets a Graph token
  for the requirement's scopes and reads the caller's group memberships. It
  calls `Succeed` on the authorization context when the configured group is
  among them.

Files:

- `nullable.dfy`: `Nullable<T>`, a C# reference that may be null.
- `chunking.dfy`: LINQ `Skip`/`Take`, the batch count (ceiling division),
  concatenation, and a recursive reference definition of batching with its
  lemmas.
- `ordinal_string.dfy`: a three-way `Compare` on strings. It is checked
  against a lexicographic reference order and proved to be a total order.
  The file also holds the insertion sort used for `OrderBy`.
- `permutation.dfy`: an element-wise projection (`Select`) and the proof that
  it carries permutations to permutations.
- `team_data.dfy`: the repository. `GetTeamDataEntitiesByIds` is a method
  whose loop follows the source's `for` loop over `Skip(i * 20).Take(20)`.
  The name projection and sort, the name comparer, `SortedSet.Add` and the
  `SortedSet` constructor are functions.
- `ad_group.dfy`: the requirement, directory objects, the three outcomes,
  the membership scan and the handler.

Collaborators that are not part of this model are parameters:

- The filtered table read is a function from a batch of row keys to the
  entities the store returns. `HonoursRowKeyFilter` states what a correct
  store does.
- The full-partition read is the sequence of entities it returned.
- Token acquisition is a function from scopes to a possibly null token.
- The Graph `me/memberOf` request is a function from a token to directory
  objects.

The store, the token service and the Graph client are injected this way;
nothing in the model reads a clock, the network or randomness.

Three behaviours of the code are modelled as written:

- The code does not fail closed. When the group is not found, it calls
  nothing on the context (`Untouched`); there is no explicit deny.
- An empty token makes the Graph request throw "Invalid authorization
  context" (`Error`), which `.Result` rethrows wrapped in an
  `AggregateException`. The code does not turn this into a denial.
- The name-keyed `SortedSet` drops all but one of several teams that share
  a name. This is modelled as the code behaves.

## Model

| member | source | states |
|---|---|---|
| Chunking.CeilDivIsCeiling | Source/CompanyCommunicator.Common/Repositories/TeamData/TeamDataRepository.cs:49-50 | The batch count is the ceiling of N/20: batches of 20 cover N ids, and one batch fewer does not (N > 0). |
| Chunking.CeilDivTwenty | Source/CompanyCommunicator.Common/Repositories/TeamData/TeamDataRepository.cs:50 | The batch count agrees with the closed form (N + 19) / 20, the integer value of `Math.Ceiling(N / 20.0)`. |
| Chunking.Batches | Source/CompanyCommunicator.Common/Repositories/TeamData/TeamDataRepository.cs:49-54 | Batching yields ceil(N/20) batches. Each batch has 1 to 20 ids, all but the last have exactly 20, and their concatenation is the input. |
| Chunking.BatchAt | Source/CompanyCommunicator.Common/Repositories/TeamData/TeamDataRepository.cs:52-54 | The i-th batch is exactly what `Skip(i * 20).Take(20)` selects, so batches are consecutive and do not overlap. |
| TeamData.GetTeamDataEntitiesByIds | Source/CompanyCommunicator.Common/Repositories/TeamData/TeamDataRepository.cs:38-66 | Null or empty ids: empty result and no query. Otherwise ceil(N/20) queries of 1..20 ids each, concatenating to the input. The result is the queries' answers concatenated in batch order. |
| TeamData.LookupReturnsOnlyRequestedIds | Source/CompanyCommunicator.Common/Repositories/TeamData/TeamDataRepository.cs:56-60 | With a store that honours the row-key filter, every returned entity's row key is one of the requested ids. |
| TeamData.RepeatedIdAcrossBatchesRepeatsEntity | Source/CompanyCommunicator.Common/Repositories/TeamData/TeamDataRepository.cs:52-60 | Ids are not deduplicated: one id repeated 21 times spans two batches, and its entity is returned twice. |
| TeamData.GetTeamNamesByIds | Source/CompanyCommunicator.Common/Repositories/TeamData/TeamDataRepository.cs:69-74 | The names are in ascending order and are a permutation of the names of the entities the lookup returns. |
| TeamData.TeamNamesIgnoreStoreOrder | Source/CompanyCommunicator.Common/Repositories/TeamData/TeamDataRepository.cs:73 | Sorted names depend only on the multiset of entities returned, not on the order the store returns them in. |
| Permutation.MapPreservesPermutation | Source/CompanyCommunicator.Common/Repositories/TeamData/TeamDataRepository.cs:73 | Projecting two permutations of each other with `Select` gives permutations of each other. |
| OrdinalString.Sort | Source/CompanyCommunicator.Common/Repositories/TeamData/TeamDataRepository.cs:73 | `OrderBy(p => p)` on names: the output is sorted and is a permutation of the input. |
| OrdinalString.SortedPermutationsEqual | Source/CompanyCommunicator.Common/Repositories/TeamData/TeamDataRepository.cs:73 | Two sorted sequences with the same multiset are equal, so the sorted order is unique. |
| OrdinalString.CompareAgreesWithLessOrEqual | Source/CompanyCommunicator.Common/Repositories/TeamData/TeamDataRepository.cs:88 | The three-way name comparison is negative or zero exactly when the first name is lexicographically at most the second, and negative exactly when strictly before it. |
| OrdinalString.CompareTransitive | Source/CompanyCommunicator.Common/Repositories/TeamData/TeamDataRepository.cs:88 | The name comparison is transitive: if a is at most b and b is at most c, then a is at most c. With `Total` and `Antisymmetric` it is a total order, which the sorted set needs. |
| TeamData.CompareByName | Source/CompanyCommunicator.Common/Repositories/TeamData/TeamDataRepository.cs:84-90 | The comparer returns zero exactly when the names are equal, and otherwise orders entities by name alone. |
| TeamData.SortedSetAdd | Source/CompanyCommunicator.Common/Repositories/TeamData/TeamDataRepository.cs:80 | Adding keeps the set strictly ascending by name. An entity whose name is present leaves the set unchanged; otherwise it is added. |
| TeamData.NewSortedSet | Source/CompanyCommunicator.Common/Repositories/TeamData/TeamDataRepository.cs:80 | Building the set gives a strictly name-ascending sequence of input entities. It covers exactly the input's names. |
| TeamData.GetAllSortedAlphabeticallyByName | Source/CompanyCommunicator.Common/Repositories/TeamData/TeamDataRepository.cs:77-82 | The result is strictly ascending by name, and each entity comes from the partition. Every partition name appears, so the length equals the number of distinct names. |
| TeamData.AtMostOneEntityPerName | Source/CompanyCommunicator.Common/Repositories/TeamData/TeamDataRepository.cs:86-89 | Two entities in the result with the same name are the same entity. |
| TeamData.SameNameEntitiesCollapse | Source/CompanyCommunicator.Common/Repositories/TeamData/TeamDataRepository.cs:79-81 | Two partition entities sharing a name make the result strictly shorter than the partition. |
| ADGroupAuthorization.ScanMemberships | Source/CompanyCommunicator/Authentication/ADGroupHandler.cs:64-72 | The scan's flag ends true exactly when it started true or some listed object's id equals the required group. A match sets it and nothing clears it. |
| ADGroupAuthorization.HandleRequirement | Source/CompanyCommunicator/Authentication/ADGroupHandler.cs:37-78 | The token is requested with the requirement's scopes. An unusable token gives "Invalid authorization context" before memberships are read. Otherwise `Succeed` is called exactly when the group is among the memberships, and nothing is called when it is not. |
| ADGroupAuthorization.ScanIgnoresOrderAndDuplicates | Source/CompanyCommunicator/Authentication/ADGroupHandler.cs:65-72 | Two membership lists with the same elements give the same decision, whatever their order and repetitions. |
| ADGroupAuthorization.EmptyMembershipsNeverSucceed | Source/CompanyCommunicator/Authentication/ADGroupHandler.cs:64-77 | An empty membership list never leads to `Succeed`. |
| ADGroupAuthorization.ScanMonotone | Source/CompanyCommunicator/Authentication/ADGroupHandler.cs:65-76 | Adding groups before or after a list that succeeds still succeeds. |
| ADGroupAuthorization.SuccessRequiresObservedGroup | Source/CompanyCommunicator/Authentication/ADGroupHandler.cs:61-77 | Success implies that memberships were read and that one of those returned for this token has the required id. |

## Left out

- Table storage: `BaseRepository`, `GetRowKeysFilter`, `GetWithFilterAsync` and `GetAllAsync` are not part of this model. Their results are parameters, and the filter string and its URL length are not modelled. The batch size of 20 is the code's constant.
- Store failures: an exception from a batch query propagates and abandons the remaining batches. The model's store is total, so this path is not modelled.
- TeamData.LookupReturnsOnlyRequestedIds: it holds only for a store that honours the row-key filter (`HonoursRowKeyFilter`). The filter is built by code that is not part of this model.
- `Math.Ceiling` over `double`: the model uses exact integer ceiling division. The two agree for id counts below 2^53.
- Enumerating `IEnumerable<string>` several times (`Any`, `Count`, `Skip`) is assumed to yield the same sequence each time. The model takes a sequence, with `Null` for a null argument.
- Culture-sensitive string comparison: .NET `CompareTo` and the default `OrderBy` comparer depend on culture. The model compares names ordinally by character code.
- Which same-name entity survives in the sorted set: the model adds entities in enumeration order, and `SortedSet.Add` keeps the first. The bulk `SortedSet` constructor does not promise this. The contracts say only that exactly one entity per name survives.
- Async plumbing: the `await`s, the blocking `.Result` on the Graph request, Graph client construction and the bearer header are not modelled. The handler is a pure function of the token and memberships the collaborators return.
- Graph paging: `MemberOf.Request().GetAsync()` returns one page of memberships, and the code scans only that page. The model scans whatever list the membership source returns.
- Graph and token failures other than an empty token (network errors, revoked sessions) surface as exceptions in the code and are not modelled.
- Null team names: entity names are non-null strings in the model. In the code a null `Name` makes the name comparer's `CompareTo` throw a `NullReferenceException`, so building the `SortedSet` fails. `OrderBy` in the name lookup would place null names first without throwing. Neither null-name path is modelled.
- A null `requirement.Group` would throw in `Equals`. The model's requirement group is a non-null string, while directory object ids may be null and never match.
- Explicit denial and fail-closed handling: the code calls no deny method and catches no exception, so the model does neither.
- The client UI overflow menu (`sentMessageOverflow.tsx`) is presentation and is not modelled.
- `TrackingUserClicks` is a data-transfer object with no behaviour and is not modelled.
