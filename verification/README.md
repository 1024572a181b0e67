# A verified model of the opni-monitoring gateway

This project models the shared state of the opni-monitoring gateway and the protocols that change it,
and proves what they keep. `dafny verify dfyconfig.toml` checks the whole project.

The model has five connected parts over one set of records (`Core.dfy`).

- **Bootstrap and authentication.** An agent fetches detached token signatures, completes its own,
  asks to bootstrap, and derives the same keys as the gateway. The gateway writes the cluster, token
  and keyring stores one after the other. Later requests carry a MAC header that is parsed and tried
  against every stored key. Files: `DetachedJws`, `JoinResponse`, `JoinToAuth`, `EndToEnd`, `Ecdh`,
  `Keyrings`, `AuthHeader`, `ClusterAuth`, `Bootstrap`, `BootstrapStatus`, `BootstrapRuns`,
  `BootstrapInvariants`, with `Text`, `Encodings` and `Paths` below.
- **Optimistic updates.** Tokens and clusters are updated by reading a value with its version,
  mutating it, and committing if the version is unchanged, with a bounded number of attempts. Any
  number of clients interleave. Files: `VersionedUpdate`, `UpdateContention`, `UpdateLoop`, `Mutators`.
- **Access control.** Role bindings, taints, roles and label selectors become one sorted list of
  clusters, which travels in a tenant header. Files: `Selection`, `Rbac`, `SortedIds`, `TenantHeader`,
  `Validation`.
- **Rule updates.** Two mutexes, a condition variable and bounded channels, as a machine of
  interleaved threads, and the copies handed to subscribers on the heap. Files: `Notifier`,
  `NotifierDelivery`, `NotifierHistory`, `NotifierSharing`, `RuleClone`.
- **Derived state.** Token expiry in the two storage backends, the cluster watch stream, and the
  user-info cache, each against a simpler state. Files: `TokenExpiry`, `ClusterWatch`, `UserInfoCache`.

## Main results

1. After a bootstrap answered 200, every request the agent signs with the key it derived is admitted,
   for its own cluster and no other, after any later run of events that does not re-create the
   cluster (`AgentStaysAdmitted`). If no other key computes the same MAC and the server does not
   reuse its ephemeral key, that is the exact condition (`AdmittedIffNotRecreated`). The proof goes
   through the order of the hash inputs, the key split, the keyring merge, the stored form, the
   header codec and the MAC trial. `JoinedAgentIsAdmitted` begins earlier, with a token listed in the
   join response, and goes through the completed signature and the 200. Without MAC collisions a
   signed header is good for its own id, nonce and body only (`MacBinds`). Each status of the
   bootstrap answer has its exact condition (`BootstrapStatus`).
2. For every interleaving of the update loop, re-creations of the key included, the stored value is
   throughout the value last put, folded with the mutators of exactly the successful calls since, in
   commit order, if and only if every successful commit is harmless; only a commit on a read from
   before the last creation of the key can be otherwise (`FoldedIffHarmless`, `Linearizable`). With N
   updaters a budget of N attempts is enough, and for two or more it is exactly what is needed
   (`BudgetSuffices`, `BudgetIsExact`); N increments add N (`ConcurrentIncrements`). The contract of the
   loop (`StoredKey.Update`) determines its result and what it leaves stored (`CallIsDetermined`), and
   every such call is a run of that machine in which the others write exactly what they write while
   it lasts (`CallIsRun`).
3. A serial run keeps clusters and keyrings in step if and only if no store call fails between the
   two writes, in a way stated exactly; a token has the right to join a cluster if and only if the
   right has an origin; and usage is counted (`RunsStayConsistent`, `JoinHasOrigin`, `UsageIsCounted`).
4. The notifier never loses a wakeup and never deadlocks, delivers every change in order except those
   offered to a full buffer, and never shares a list, a rule list or a label map
   (`NoFetcherForgotten`, `NoDeadlock`, `EveryChangeInOrder`, `NoSharedLists`, `Deliver`). The changes
   are exactly the lists that fetches found to differ, and receipts are in the order of sending
   (`EveryComparedListIsHistory`, `HistoryWasFound`, `ReceivedInOrder`).
5. Both token backends refine one store of tokens with deadlines, through every run
   (`RunsRefine`), so they agree on lookups and lists, and on updates exactly unless a token is expired
   and uncollected (`BackendsAgree`, `ListsAgree`, `UpdatesAgreeIff`, `RemainingTime`).
6. The access list is exactly what bindings, roles and selectors reach, strictly sorted, independent
   of order and monotone (`SubjectAccess`, `AccessIgnoresOrder`, `AccessMonotone`), and the header
   carries it unchanged under a condition that is exact (`RoundTripIff`, `HeaderCarriesAccess`).

## How the source is represented

- Keys and hashes are terms. The one law used is that X25519 agrees for both parties (section 6.1 of
  RFC 7748). `Hash` and `Seeded` are free constructors. The MAC and the JWS signature are function
  parameters: results hold for every function, or under a stated condition on it.
- A Go map is iterated in any order: such loops pick the next key arbitrarily.
- Calls that leave the process are inputs: which store calls fail, the ephemeral key, whether a
  capability installs, what the OpenID provider answers, the clock, and the writes of other clients.
- Bootstrap requests are taken one at a time. The existence check and the keyring Get and Put of an
  edit are not atomic in the source, so nothing is claimed for requests that overlap.
- The number of attempts of an update is a parameter, because the backoff may stop at its cap before
  its twenty steps (`pkg/storage/etcd/etcd.go:22-28`).
- The notifier and the concurrent updates are state machines over small steps; the other imperative
  code is methods and classes.

## Where the code departs from its documentation or from what one would expect

- `labelSelectorMatches` returns true at the first `NotIn` that passes and skips what follows
  (`pkg/storage/selection.go:67`). `SkippedRequirement` is an instance. `ExactCondition` says for every
  selector when the result is still the whole conjunction for all labels: each later requirement is
  implied by what precedes on the same key, or what precedes is contradictory.
- Deleting a cluster leaves its keyring, so its agent stays admitted; only a later creation of the
  same cluster answered 200 replaces the keyring (`AdmittedIffNotRecreated`).
- A failed write in the middle of a bootstrap leaves earlier writes behind. `ConsistentStep` says which
  failures leave a cluster out of step with its keyring, `FailedPutBreaksConsistency` is an instance.
- The etcd version of a key restarts when it is deleted and created again, so an update in flight
  across that can overwrite a value it never saw (`RecreationLosesAPut`). `FoldedIffHarmless` and
  `NotStaleIsHarmless` say exactly when.
- The CRD backend updates tokens that have expired and not been collected (`ExpiredUpdateDiffers`; that
  this is the only difference is `UpdatesAgreeIff`), returns the initial and not the remaining time to
  live from an update, answers a lookup of one with a Kubernetes error that is not the storage package's not-found error,
  and leaves holes for them in listings. A hole is signed like a token with an empty id, so a
  listing of holes alone does not make the join handler answer 405 (`HandleBootstrapJoin`).
- The comment on the notifier interface (`pkg/rules/types.go:15-20`) promises an initial delivery and
  the closing of channels; the code does neither, and the model follows the code. A subscriber that
  arrives between the assignment of the latest list and the locking of the channel list still gets
  that change.
- A copied rule group keeps name, interval and rules; anything else a group carries is left at zero, so
  a delivered list equals the latest one exactly if nothing else is set (`CopyIsExactIff`), and two
  changes that differ only there are delivered alike (`CopiesEqualIff`).
- The etcd keyring store cleans the path it makes of an id. An id that is one path segment, as every valid
  id is, finds its own ring (`PlainRing`); an id such as `x/../c` finds the ring of `c` and is passed
  on under the name it gave itself (`DetourAdmission`).
- The tenant header drops empty ids and cannot carry an empty list (`RoundTripIff`).

## Model

| member | source | states |
|---|---|---|
| Core.TokenCapabilityEqualIsIdentityOnFull | pkg/core/comparator.go:7-37 | The capability comparator is equality restricted to capabilities with every part set; an incomplete one matches nothing, itself included |
| Core.ClusterCapabilityEqualIsIdentityOnNamed | pkg/core/comparator.go:12-14 | Cluster capabilities are equal exactly when they have the same name and it is not empty |
| Mutators.Metadata.IncrementUsageCount | pkg/storage/mutators.go:15-19 | Raises the count by one and leaves the capabilities alone |
| Mutators.Metadata.AddCapability | pkg/storage/mutators.go:21-35 | The list gains the capability at its end unless one in it compares equal |
| Mutators.Metadata.RemoveCapability | pkg/storage/mutators.go:37-47 | The list keeps, in order, what does not compare equal |
| Mutators.RemovedContents | pkg/storage/mutators.go:37-47 | After a removal nothing matches, everything else is still there, and a list without a match is unchanged |
| Mutators.RemovedConcat | pkg/storage/mutators.go:37-47 | Removal goes element by element and keeps the order |
| Mutators.AddThenRemove | pkg/storage/mutators.go:21-47 | Removing what was just added restores the list |
| Mutators.AddedKeepsDistinct | pkg/storage/mutators.go:21-35 | Adding makes the capability present, keeps the list free of matching pairs, and is idempotent |
| Mutators.AddedToToken | pkg/storage/mutators.go:21-35 | Under the comparator of token capabilities the add mutator is the list change the bootstrap handler makes |
| Mutators.AddedToCluster | pkg/storage/mutators.go:21-35 | The same for cluster capabilities |
| Ecdh.DeriveSharedSecret | pkg/ecdh/ecdh.go:60-79 | With a peer of either type the hash covers the agreed point, the key of the client and the key of the server, in that order; fails exactly on a rejected point |
| Ecdh.SecretsAgree | pkg/ecdh/ecdh.go:60-79 | Client and server derive the same secret for all keys |
| Ecdh.SecretIs | pkg/ecdh/ecdh.go:60-79 | For all key pairs both sides hash the point they agree on, then the public key of the client, then that of the server |
| Ecdh.SecretExistsIff | pkg/ecdh/ecdh.go:60-65 | Either side derives a secret exactly if the other key is a point of the curve |
| Ecdh.KeysAre | pkg/keyring/keys.go:21-29 | The client key is seeded from the first half of that hash and the server key from the second |
| Ecdh.RolesMatter | pkg/ecdh/ecdh.go:67-73 | Two parties that both take the other for the client agree only with equal keys, so the role is needed |
| Ecdh.ServerKeyDeterminesKeys | pkg/keyring/keys.go:21-29 | Different server or client keys give different client keys, and a client key is never a server key |
| Keyrings.New | pkg/keyring/keyring.go:43-55 | Groups exactly the given keys by type, each type in the given order |
| Keyrings.ForEach | pkg/keyring/keyring.go:98-104 | Visits, whatever the order of types, each type's keys in their order and nothing else |
| Keyrings.Merge | pkg/keyring/keyring.go:57-66 | For each type the receiver's keys, then the argument's |
| Keyrings.Merged | pkg/keyring/keyring.go:57-66 | A merge of two rings always exists |
| Keyrings.MergeIsUnique | pkg/keyring/keyring.go:57-66 | Any two merges of the same rings are equal: iteration order cannot be observed |
| Keyrings.Marshal | pkg/keyring/keyring.go:106-122 | The stored form holds the ring's list of each type |
| Keyrings.Unmarshal | pkg/keyring/keyring.go:124-141 | The restored ring holds the stored list of each type, and no type whose list is empty |
| Keyrings.RestoredLists | pkg/keyring/keyring.go:124-141 | Restoring keeps every per-type sequence |
| Keyrings.StoreRoundTrip | pkg/keyring/keyring.go:106-141 | Storing and restoring are inverse to each other, in both directions |
| Keyrings.MergeThroughStoreConserves | pkg/bootstrap/server.go:256-260 | Read, merge and write back loses and duplicates no key |
| Encodings.Base64RoundTrip | pkg/b2mac/header.go:22-23 | Decoding unpadded base64url (section 5 of RFC 4648) undoes encoding for all bytes |
| Encodings.HexRoundTrip | pkg/tokens/token.go:52-62 | Decoding hex undoes encoding for all bytes |
| Encodings.Base64Vectors | pkg/b2mac/header.go:22-23 | Encoded bytes of each remainder, with the two characters of the URL alphabet, as RFC 4648 writes them |
| Encodings.HexDigitsMean | pkg/tokens/token.go:52-62 | Digits stand for their values in upper and lower case |
| AuthHeader.UuidRoundTrip | pkg/b2mac/header.go:58 | Parsing the text of a UUID (section 3 of RFC 4122) restores it |
| AuthHeader.DecodeAuthHeader | pkg/b2mac/header.go:29-84 | Returns credentials if and only if the header carries exactly them: the MAC scheme, three elements, known keys, decodable values, a version 4 nonce, a non-empty id and MAC; otherwise the error is that of the scheme, of the first bad element, or of what is missing, the MAC first |
| AuthHeader.DecodeElement | pkg/b2mac/header.go:37-72 | One element is good, or has the first of the errors: no pair, not quoted, a repeated key, a bad value, an unknown key |
| AuthHeader.PairErrors | pkg/b2mac/header.go:37-45 | Not a pair exactly without exactly one equals sign, not quoted exactly without a quote at both ends of the value; otherwise key without outer white space and value without quotes |
| AuthHeader.ElementErrors | pkg/b2mac/header.go:46-72 | When each error of an element is given: a repeated key, an unknown key, an id or MAC that is not base64, a nonce that is no UUID, a nonce that is not version 4 |
| AuthHeader.WrongTypeIff | pkg/b2mac/header.go:30-32 | The scheme is at fault exactly for a header that does not begin with it and a space |
| AuthHeader.MissingParts | pkg/b2mac/header.go:74-83 | Where every element is good, the MAC is missed first, then the nonce, then the id |
| AuthHeader.OneFailure | pkg/b2mac/header.go:29-84 | A header fails with at most one error |
| AuthHeader.V4Text | pkg/b2mac/header.go:19-21 | Version 4 with the variant of RFC 4122 shows as a 4 at the head of the third group and one of 8, 9, a, b at the head of the fourth |
| AuthHeader.UuidBareForm | pkg/b2mac/header.go:58 | A nonce is also read from 32 bare digits |
| AuthHeader.UuidEnclosedForm | pkg/b2mac/header.go:58 | Also from its text between any two delimiters |
| AuthHeader.UuidUrnForm | pkg/b2mac/header.go:58 | Also from its text after the urn prefix in either case |
| AuthHeader.EachKeyOnce | pkg/b2mac/header.go:46-72 | In an accepted header each of the three keys occurs exactly once and no other key occurs |
| AuthHeader.CarriedOnce | pkg/b2mac/header.go:29-84 | A header carries at most one set of credentials |
| AuthHeader.DecodesInAnyOrder | pkg/b2mac/header.go:33-73 | In any order of the three elements the encoded credentials are what the header carries |
| AuthHeader.EncodeThenDecode | pkg/b2mac/header.go:18-84 | The encoder refuses exactly nonces that are not version 4, and what it writes decodes to the same credentials exactly when id and MAC are not empty |
| ClusterAuth.New512 | pkg/b2mac/mac.go:18-28 | The MAC is that of id, nonce and payload, one after the other |
| ClusterAuth.Verify | pkg/b2mac/mac.go:30-42 | Accepts exactly the MAC that the key computes over id, nonce and payload |
| ClusterAuth.Try | pkg/auth/cluster/cluster.go:117-127 | Authorized if and only if some key of the ring verifies, and the keys kept are those of the last that does |
| ClusterAuth.AdmitsDecoded | pkg/auth/cluster/cluster.go:95-135 | With the credentials known, admission is a question about one stored ring |
| ClusterAuth.Handle | pkg/auth/cluster/cluster.go:87-136 | Lets a request through for an id if and only if the keyring can be looked up, the header names the id and some client key of the ring found for it verifies the body; 400 exactly for headers without credentials, 500 exactly for a ring without shared keys, 401 otherwise |
| ClusterAuth.PlainRing | pkg/storage/etcd/keyring_store.go:35-50 | An id that is one path segment finds its own ring and no other |
| ClusterAuth.DetourRing | pkg/storage/etcd/keyring_store.go:38 | An id that goes down and up again finds the ring of the id it ends in |
| Paths.PlainKey | pkg/storage/etcd/keyring_store.go:28 | A plain id has a key right under the prefix |
| Paths.PlainKeysDiffer | pkg/storage/etcd/keyring_store.go:28 | Different plain ids have different keys |
| Paths.DetourKey | pkg/storage/etcd/keyring_store.go:38 | Path cleaning gives `x/../c` the key of `c` |
| Paths.CleaningLaws | pkg/storage/etcd/keyring_store.go:28 | Empty and dot segments vanish, a parent step takes a segment away, and stays at the top of a relative path |
| DetachedJws.ParseHex | pkg/tokens/token.go:78-96 | Returns a token if and only if the text is 12 and 52 hex digits around one dot that spell it |
| DetachedJws.HexTokenRoundTrip | pkg/tokens/token.go:52-96 | Writing and parsing restores a token exactly when its id has 6 and its secret 26 bytes |
| DetachedJws.FromBootstrapToken | pkg/tokens/conversion.go:9-28 | Decodes id and secret, an absent record reading as empty; fails exactly on text that is not hex |
| DetachedJws.BootstrapTokenRoundTrip | pkg/tokens/conversion.go:9-37 | Storing a token and reading it back restores it |
| DetachedJws.ReattachIff | pkg/tokens/token.go:111-135 | Re-attaching the payload rebuilds the compact message (section 7.1 of RFC 7515) if and only if neither header nor signature holds a dot, for every payload |
| DetachedJws.AttachIgnoresMiddle | pkg/tokens/token.go:126-135 | Attaching ignores whatever stands between the first and the last dot |
| DetachedJws.AttachAtSingleDot | pkg/tokens/token.go:126-135 | A text with one dot is completed as if it had two |
| DetachedJws.SignDetached | pkg/tokens/token.go:99-117 | The result is header, two dots and signature (appendix F of RFC 7515), and completing it gives the signed message |
| DetachedJws.VerifyDetached | pkg/tokens/token.go:121-144 | Returns the completed message exactly when the text has a dot and the completed message verifies |
| DetachedJws.VerifiesIff | pkg/tokens/token.go:99-144 | A signature made for one token verifies for another exactly when the key signs both alike, and then yields the other's own message |
| DetachedJws.SignedOpens | pkg/bootstrap/server.go:92-104 | A signed message verifies and its payload is the token it was made for |
| JoinResponse.BootstrapJoinResponse | pkg/bootstrap/server.go:31-54 | Answers exactly when every listed token is hex, with one signature per id, made for the last token listed with it; the answer is empty only for an empty listing |
| JoinResponse.HoleIsSigned | pkg/bootstrap/server.go:32-50 | A hole in the listing is signed like a token without id and secret, under the empty id |
| JoinResponse.FoundIff | pkg/bootstrap/client.go:196-204 | A lookup succeeds if and only if the last listed token with the holder's id is signed like the holder's |
| JoinResponse.EveryHolderFinds | pkg/bootstrap/client.go:196-204 | With distinct ids every holder finds its own signature, and the message it completes opens to its token |
| JoinResponse.OnlyHoldersFind | pkg/bootstrap/client.go:196-204 | With distinct ids and a collision-free key nobody but the holders of listed tokens succeeds |
| JoinResponse.HandleBootstrapJoin | pkg/bootstrap/server.go:67-82 | 400 exactly for a non-blank authorization, 500 exactly for a listing that fails or cannot be read, 405 exactly for an empty one, else 200 with the signatures |
| JoinToAuth.SignedAuthorizes | pkg/bootstrap/server.go:86-105 | A signed token sent as a bearer is what the gateway reads from the header |
| JoinToAuth.PrefixTrimmed | pkg/bootstrap/server.go:92 | The scheme is taken off once where it is there, and nothing where it is not |
| JoinToAuth.HolderPassesChecks | pkg/bootstrap/client.go:101 | The holder of a listed token with a distinct id passes the signature and the token check with the message it found in the join response |
| JoinToAuth.UnsignedIsRefused | pkg/bootstrap/server.go:86-98 | Any other authorization is refused with 401 |
| EndToEnd.JoinedGets200 | pkg/bootstrap/server.go:84-201 | The holder of a listed token with a distinct id that may bring the capability is answered 200 with what it found in the join response |
| EndToEnd.JoinedAgentIsAdmitted | pkg/bootstrap/client.go:101-126 | And afterwards, through any run that does not re-create the cluster, every request it signs is admitted as its cluster and no other |
| Bootstrap.Gateway.HandleBootstrapAuth | pkg/bootstrap/server.go:84-201 | Stores and answer are those of `Auth`, for every combination of failing calls; which check gives which answer is said by the members of `BootstrapStatus` |
| BootstrapStatus.Unauthorized | pkg/bootstrap/server.go:84-150 | 401 if and only if the gateway did not sign what is presented, or the token is not stored, or the stored cluster lacks the capability and the token may not join it |
| BootstrapStatus.BadRequest | pkg/bootstrap/server.go:114-121 | 400 if and only if the token is found and the body is missing or invalid |
| BootstrapStatus.Conflict | pkg/bootstrap/server.go:132-150 | 409 if and only if the checks before pass and the stored cluster has the capability, whatever the token may do |
| BootstrapStatus.NotInstalled | pkg/bootstrap/server.go:163-173 | 404 if and only if everything before is in order and the capability is unknown, 503 if and only if it cannot be installed |
| BootstrapStatus.ServerError | pkg/bootstrap/server.go:84-201 | 500 if and only if a lookup fails, or the client key of a request that may proceed is no point, or a store call fails while the stores are written |
| BootstrapStatus.Accepted | pkg/bootstrap/server.go:175-201 | 200 if and only if everything is in order and nothing fails, and only then the answer has the public half of the ephemeral key |
| BootstrapStatus.FailedEffect | pkg/bootstrap/server.go:203-265 | Exactly what a failing store call leaves behind of a new and of a stored cluster; never a ring and never an installation |
| Bootstrap.Gateway.HandleCreate | pkg/bootstrap/server.go:203-233 | Cluster, token and keyring are written in that order up to the first failing call |
| Bootstrap.Gateway.HandleEdit | pkg/bootstrap/server.go:235-265 | Token, cluster and keyring are written in that order up to the first failing call, the new keys merged in front |
| Bootstrap.MergedRing | pkg/bootstrap/server.go:256-260 | What the keyring methods store on an edit is the old list with the new keys in front |
| BootstrapRuns.RefusedLeavesStores | pkg/bootstrap/server.go:84-201 | Every answer other than 200 and 500 leaves all stores as they were |
| BootstrapRuns.AnsweredOkIff | pkg/bootstrap/server.go:84-265 | The exact condition for a 200 |
| BootstrapRuns.OkEffect | pkg/bootstrap/server.go:175-265 | The whole effect of a 200: one use more, the right to join, the cluster created or extended, the keyring new or extended in front, everything else untouched |
| BootstrapRuns.KeyringEffect | pkg/bootstrap/server.go:203-265 | Only a 200 changes keyrings, and only that of the named cluster |
| BootstrapRuns.AgentKeyStored | pkg/bootstrap/client.go:116-126 | After a 200 the client key the agent derives is in the stored keyring |
| BootstrapRuns.KeySurvivesStep | pkg/bootstrap/server.go:203-265 | A stored key survives every event that does not re-create the cluster |
| BootstrapRuns.KeySurvives | pkg/bootstrap/server.go:203-265 | And every run without a re-creation, whatever keys the server uses later |
| BootstrapRuns.KeyStep | pkg/bootstrap/server.go:203-265 | An event leaves a key stored if and only if it derives that key, or the key was stored and the event does not re-create the cluster |
| BootstrapRuns.KeyOverRun | pkg/bootstrap/server.go:203-265 | Over a run that does not reuse the ephemeral key, a key is stored afterwards if and only if it was before and the cluster was not re-created |
| BootstrapRuns.SignedAdmission | pkg/auth/cluster/cluster.go:95-135 | A signed request is admitted exactly for the id it names and exactly when some client key of the ring found for that id computes its MAC |
| BootstrapRuns.KeyAdmission | pkg/auth/cluster/cluster.go:95-135 | For an id that is one path segment, a stored key admits what it signs; without MAC collisions only a key stored for that very id does |
| BootstrapRuns.DetourAdmission | pkg/storage/etcd/keyring_store.go:38 | A request that names `x/../c` is admitted with a key stored for `c`, under its own name only |
| BootstrapRuns.ValidIsPlain | pkg/validation/validation.go:60-69 | Every valid id is one path segment |
| BootstrapRuns.AgentStaysAdmitted | pkg/bootstrap/server.go:152-265 | After a 200 and any later run without re-creation, every request the agent signs is admitted as its cluster and no other |
| BootstrapRuns.AdmittedIffNotRecreated | pkg/bootstrap/server.go:203-265 | Without MAC collisions and reuse of the ephemeral key the agent is admitted if and only if the cluster was not re-created |
| BootstrapRuns.MacBinds | pkg/b2mac/mac.go:18-42 | With a MAC without collisions a header that carries the MAC of one message is admitted if and only if id, nonce and body are those of the message and the key is in the ring of that cluster |
| BootstrapRuns.BodyIsCovered | pkg/b2mac/mac.go:30-42 | A header signed for one body is admitted with no other body and for no other cluster |
| BootstrapRuns.CoveredParts | pkg/b2mac/mac.go:18-28 | For ids of one length the covered message determines id, nonce and payload |
| BootstrapRuns.EditLabelsEffect | pkg/management/clusters.go:106-119 | Editing a cluster replaces its labels and nothing else |
| BootstrapRuns.ManagementEffect | pkg/management/clusters.go:71 | Tokens and clusters come and go alone; deleting a cluster leaves its keyring |
| BootstrapInvariants.ConsistentStep | pkg/bootstrap/server.go:123-265 | An event keeps clusters and keyrings in step if and only if it is not a request that passes the checks and then fails between the write of the cluster and that of its keyring; a leftover ring with one key set excuses a new cluster |
| BootstrapInvariants.RunsStayConsistent | pkg/bootstrap/server.go:123-265 | A run is consistent throughout if and only if no event breaks it; consistent is: each stored cluster has a duplicate-free capability list and a keyring with as many shared key sets |
| BootstrapInvariants.FailureFreeRuns | pkg/bootstrap/server.go:123-265 | Every failure-free run ends consistent |
| BootstrapInvariants.FailedPutBreaksConsistency | pkg/bootstrap/server.go:209-230 | An instance of an event that leaves a cluster without a keyring |
| BootstrapInvariants.JoinStep | pkg/bootstrap/server.go:212-220 | After an event a token may join a cluster if and only if it was just created with that right, or it is still the same token and had the right or created the cluster in a request that reached the token update |
| BootstrapInvariants.JoinHasOrigin | pkg/bootstrap/server.go:132-150 | After every run, failures included, a token may join a cluster if and only if it itself, and not an earlier token of its id, was created with the right, created the cluster in a request that reached the token update, or had the right before the run |
| BootstrapInvariants.CapabilityNeedsRight | pkg/bootstrap/server.go:132-150 | A capability appears on an existing cluster only through a token that may join it, once, at the end of the list |
| BootstrapInvariants.UsageIsCounted | pkg/bootstrap/server.go:212-245 | In every run, failures included, the usage count rises by exactly the number of requests that reached the token update |
| BootstrapInvariants.SpentIffAnsweredOk | pkg/bootstrap/server.go:212-245 | Without failures those are exactly the requests answered 200 |
| VersionedUpdate.StepKeeps | pkg/storage/etcd/token_store.go:124-152 | Every read, commit, put and delete, re-creation included, keeps reads of the present life fresh and commits counted |
| VersionedUpdate.NotStaleIsHarmless | pkg/storage/etcd/token_store.go:138-140 | Only a commit on a read from before the last creation can write something else than it would from the present value |
| VersionedUpdate.CommitFoldsIff | pkg/storage/etcd/cluster_store.go:120-122 | A successful commit continues the fold if and only if it is harmless |
| VersionedUpdate.FoldedStep | pkg/storage/etcd/cluster_store.go:106-134 | The same for every step |
| VersionedUpdate.FoldedIffHarmless | pkg/storage/etcd/cluster_store.go:100-139 | In every interleaving the value is throughout the fold of the committed mutators if and only if every successful commit is harmless |
| VersionedUpdate.Linearizable | pkg/storage/etcd/cluster_store.go:100-139 | In every interleaving each successful call committed exactly once and no other call did; without a stale commit the value is the one last put folded with the committed mutators in commit order |
| VersionedUpdate.Initially | pkg/storage/etcd/token_store.go:122-129 | The invariants hold before anybody has read |
| VersionedUpdate.RecreationLosesAPut | pkg/storage/etcd/cluster_store.go:120-122 | A run in which a key is re-created under an update in flight and the put value is lost |
| UpdateContention.ContendedRun | pkg/storage/etcd/token_store.go:124-152 | In a run of updaters alone every failure is paid for by another's commit, and every step is accounted for |
| UpdateContention.BudgetSuffices | pkg/storage/etcd/token_store.go:124-152 | With a budget of N each of N updaters fails at most N-1 times, none gives up, every run ends within 2NN steps with all successful |
| UpdateContention.Round | pkg/storage/etcd/token_store.go:124-152 | One round in which another updater's commit makes the first one fail |
| UpdateContention.BudgetIsExact | pkg/storage/etcd/etcd.go:22-33 | For two or more updaters some run exhausts one if and only if the budget is below N |
| UpdateContention.ConcurrentIncrements | pkg/storage/mutators.go:15-19 | N concurrent increments raise the count by exactly N |
| UpdateContention.IncrementRespects | pkg/storage/etcd/token_store.go:95-98 | Incrementing does not depend on the lease data a read refreshes |
| UpdateLoop.StoredKey.Update | pkg/storage/etcd/token_store.go:122-157 | All attempts before the last one made conflict; the last one ends the call: an update stores and returns the mutator's result for what it read, one version up, only if the version it read is still there; every other outcome, with its exact condition, leaves what the others wrote |
| UpdateLoop.CallIsDetermined | pkg/storage/etcd/token_store.go:122-157 | What the others do determines which attempt ends the call, its result and what is stored |
| UpdateLoop.OthersOnly | pkg/storage/etcd/token_store.go:153-156 | A call that does not report an update wrote nothing |
| UpdateLoop.ReplacesWhatItRead | pkg/storage/etcd/token_store.go:138-140 | Unless the key is deleted in between, an update replaces exactly what it read |
| UpdateLoop.CallIsRun | pkg/storage/etcd/token_store.go:122-157 | The call is a run of the update protocol from the entry it found to the entry it left, in which the others write exactly what they write while it lasts, and which ends as the call reports |
| UpdateLoop.StoredKey.Interfere | pkg/storage/etcd/cluster_store.go:106-134 | Other clients' writes around an attempt, in order |
| UpdateLoop.StoredKey.Attempt | pkg/storage/etcd/cluster_store.go:106-134 | One attempt has exactly one of its outcomes, each with its condition and with what is then stored |
| UpdateLoop.AttemptRun | pkg/storage/etcd/cluster_store.go:106-134 | An attempt extends a run by the others' writes it lives to see and by its own steps |
| UpdateLoop.ReadReach | pkg/storage/etcd/cluster_store.go:111-114 | The read of an attempt is a step of the protocol |
| UpdateLoop.CommitReach | pkg/storage/etcd/cluster_store.go:120-133 | The commit that ends an attempt is a step of the protocol |
| UpdateLoop.WritesRun | pkg/storage/etcd/cluster_store.go:106-134 | Others' writes extend a run and touch nothing but the entry |
| Selection.LabelSelectorMatches | pkg/storage/selection.go:39-80 | True exactly when the match labels and the expressions up to and including the first NotIn hold |
| Selection.NothingAfterNotIn | pkg/storage/selection.go:58-68 | It equals the whole conjunction for all labels if nothing follows the first NotIn |
| Selection.MatchesByKey | pkg/storage/selection.go:39-80 | Matching is a question about each key on its own |
| Selection.NotContradictory | pkg/storage/selection.go:39-80 | A selector that leaves every key some value is matched by some labels |
| Selection.LostRequirement | pkg/storage/selection.go:58-68 | A requirement after the first NotIn that is not implied is lost for some labels |
| Selection.ExactCondition | pkg/storage/selection.go:39-80 | For every selector it equals the whole conjunction for all labels if and only if every requirement after the first NotIn is implied by what precedes on the same key, or what precedes is contradictory |
| Selection.ExactForDistinctKeys | pkg/storage/selection.go:39-80 | For a valid, satisfiable selector with distinct keys: if and only if nothing follows the first NotIn |
| Selection.SkippedRequirement | pkg/storage/selection.go:67 | A selector and labels for which a failing requirement is skipped |
| Selection.ValidatedInNeedsKey | pkg/core/validation.go:22-57 | In a validated selector In and match labels are met only by a label that is present |
| Selection.Predicate | pkg/storage/selection.go:13-37 | Selects by id or labels; the empty selector selects all or none as the option says |
| Selection.OperatorLaws | pkg/storage/selection.go:39-80 | In and NotIn are opposites on a label that is there, Exists and DoesNotExist everywhere; NotIn needs the label, a missing label counts as empty for In, an unknown operator asks nothing |
| Selection.EmptySelects | pkg/storage/selection.go:14-22 | Without ids, and without a selector or with an empty one, every cluster is selected, or none with the option |
| Selection.IdsSelect | pkg/storage/selection.go:23-36 | Ids without a selector select exactly those ids, whatever the option |
| Selection.SelectorSelects | pkg/storage/selection.go:23-36 | A selector with something in it selects the ids and the clusters whose labels match |
| SortedIds.Sort | pkg/storage/rbac_provider.go:81-89 | The strictly sorted list of exactly the given ids |
| SortedIds.LessMeans | pkg/storage/rbac_provider.go:87-89 | The order is by the first character that differs, and a proper prefix comes first |
| SortedIds.SortedUnique | pkg/storage/rbac_provider.go:87-89 | Strictly sorted lists with the same members are equal |
| Rbac.BindingObject.ApplyTaints | pkg/storage/taints.go:10-22 | Adds the taint of a missing role and that of no subjects, and fails exactly when the role cannot be read |
| Rbac.ListRoleBindings | pkg/storage/etcd/rbac_store.go:125-146 | Every stored binding with its taints, in order; fails exactly when the listing or a role lookup does |
| Rbac.ListClusters | pkg/storage/etcd/cluster_store.go:43-74 | The stored clusters the selector stands for, in order and as often as stored |
| Rbac.EmptyListsAll | pkg/storage/etcd/cluster_store.go:43-74 | An empty selector without the option lists every cluster |
| Rbac.EmptyListsNone | pkg/storage/etcd/cluster_store.go:43-74 | With the option it lists none |
| Rbac.SubjectAccess | pkg/storage/rbac_provider.go:26-93 | Without error the strictly sorted list of exactly the ids reachable through an untainted binding that names the subject and whose role resolves; the exact error condition |
| Rbac.RoleWithoutSelector | pkg/storage/rbac_provider.go:66-79 | A role whose selector is absent or empty reaches exactly its explicit ids |
| Rbac.RoleWithSelector | pkg/storage/rbac_provider.go:66-79 | A role with a selector reaches those ids and the ids of stored clusters whose labels match |
| Rbac.AppliesIff | pkg/storage/rbac_provider.go:38-58 | A binding applies exactly if it names the subject, was stored without taints, and its role is there when bindings are listed and when access is resolved |
| Rbac.AccessIgnoresOrder | pkg/storage/rbac_provider.go:39-89 | Stores with the same contents in any order give the same list |
| Rbac.AccessMonotone | pkg/storage/rbac_provider.go:38-80 | More bindings and clusters never remove access |
| Rbac.TaintedGivesNothing | pkg/storage/rbac_provider.go:49-56 | A binding with a taint gives nobody access |
| Validation.ValidIdIff | pkg/validation/validation.go:60-69 | A valid id is one to 128 letters, digits, dashes, underscores, dots and parentheses, and not only dots |
| Validation.LabelsDifferBySlash | pkg/validation/validation.go:24-25 | Label names may hold a slash after the first character, values may not; apart from that they are alike |
| TenantHeader.Encode | pkg/util/codecs.go:15-24 | The non-empty ids, trimmed and joined |
| TenantHeader.Decode | pkg/util/codecs.go:26-32 | The pieces between delimiters, trimmed |
| TenantHeader.RoundTripIff | pkg/util/codecs.go:15-32 | A list arrives as sent if and only if it is not empty and each id is non-empty, trimmed and free of the delimiter, or it is the single empty id |
| TenantHeader.TransportedIsClean | pkg/util/codecs.go:26-32 | Whatever was sent, what arrives is trimmed and free of the delimiter |
| TenantHeader.Handle | pkg/rbac/middleware.go:19-40 | Forwards exactly the subjects with some access, with exactly their access list; refuses with 401 otherwise |
| TenantHeader.HeaderCarriesAccess | pkg/rbac/middleware.go:33-38 | A header made from valid ids decodes to the access list |
| TenantHeader.AccessibleIsValid | pkg/validation/validation.go:60-69 | Ids reachable in a store of validated roles and clusters are valid ids |
| Notifier.Modified | pkg/rules/notifier.go:70-84 | The comparison finds a change exactly when the lists differ |
| Notifier.LocksStep | pkg/rules/notifier.go:34-98 | Every step keeps each mutex held by exactly the thread that is inside it |
| Notifier.WakeupStep | pkg/rules/notifier.go:34-66 | Every step keeps sleepers either without channels or about to be woken |
| Notifier.RunIsSafe | pkg/rules/notifier.go:34-98 | Both invariants hold in every reachable state |
| Notifier.NoFetcherForgotten | pkg/rules/notifier.go:34-72 | While a channel exists a fetcher sleeps only if the first subscriber is about to signal, can, and wakes it |
| Notifier.NoDeadlock | pkg/rules/notifier.go:60-98 | Every blocked thread waits for a holder that can run, at most two steps away; there is no circular wait |
| NotifierDelivery.RunDelivers | pkg/rules/notifier.go:70-98 | History, channel and ownership invariants hold in every reachable state |
| NotifierDelivery.EveryChangeInOrder | pkg/rules/notifier.go:70-98 | Consecutive values differ, buffers hold at most three, a subscriber gets in order a copy of every change since it subscribed except those offered to a full buffer, and misses at most the one under way |
| NotifierHistory.CompareStep | pkg/rules/notifier.go:70-88 | A fetch goes on to deliver if and only if the list found differs from the latest, which it then becomes, last in the history; otherwise it ends and changes nothing |
| NotifierHistory.SpawnStep | pkg/rules/notifier.go:34-59 | A call begins as a fetch or as a subscription, beside all the others |
| NotifierHistory.TestStep | pkg/rules/notifier.go:59-66 | A fetch asks the finder exactly when there is a channel, and otherwise sleeps without the mutex |
| NotifierHistory.SendStep | pkg/rules/notifier.go:89-98 | The delivery offers the latest list to one channel after the other and ends exactly after the last |
| NotifierHistory.ComparesWhatItFound | pkg/rules/notifier.go:68-74 | In every run what a fetch compares is what its finder returned |
| NotifierHistory.EveryComparedListIsHistory | pkg/rules/notifier.go:70-88 | In every run a list that was compared is in the history from then on, in the place of what was the latest or right after it |
| NotifierHistory.HistoryWasFound | pkg/rules/notifier.go:70-88 | In every run everything in the history after the first entry was found by some fetch |
| NotifierHistory.ReceivedInOrder | pkg/rules/notifier.go:34-57 | In every run the k-th receipt from a channel gets the k-th snapshot ever enqueued on it |
| NotifierHistory.ReceivedCount | pkg/rules/notifier.go:34-57 | In every run what was enqueued is what was received and what is buffered |
| NotifierHistory.ListedIffSubscribed | pkg/rules/notifier.go:34-57 | In every run the listed channels are exactly those of the subscribers that have appended and not yet removed theirs, each once |
| NotifierDelivery.CopyIsExactIff | pkg/rules/types.go:32-49 | A delivered list equals the latest one if and only if no group carries what a copy leaves out |
| NotifierDelivery.CopiesEqualIff | pkg/rules/types.go:32-49 | Two lists are delivered alike if and only if they agree in what a copy takes over |
| NotifierSharing.NoSharedLists | pkg/rules/notifier.go:88-97 | In every reachable state no two deliveries are the same list, and none is the latest list |
| NotifierSharing.RunIsUnshared | pkg/rules/notifier.go:88-97 | Lists held by threads and channels stay distinct in every reachable state |
| RuleClone.CloneMap | pkg/rules/types.go:44-45 | A new map with the same entries; an absent map stays absent |
| RuleClone.CloneRule | pkg/rules/types.go:39-46 | An equal rule with two new, different maps |
| RuleClone.CloneRuleGroup | pkg/rules/types.go:32-49 | A group equal in name, interval and rules whose rule list and maps are new, each map in one place; the rest is zero |
| RuleClone.CloneRuleGroupList | pkg/rules/types.go:24-30 | An equal list that shares nothing with what existed before, nor one group with another |
| RuleClone.Offer | pkg/rules/notifier.go:92-96 | A channel with room takes the copy and the next one is made; a full channel leaves the copy for the next |
| RuleClone.Deliver | pkg/rules/notifier.go:90-97 | Exactly the channels with room get a copy equal to the latest list at their end; all lists, rule lists and maps delivered are pairwise disjoint, disjoint from those of the latest list, and new |
| TokenExpiry.TokenObject.PatchTtl | pkg/storage/crds/token_store.go:139-148 | The time to live becomes what is left of it, never below zero |
| TokenExpiry.CrdStore.CreateToken | pkg/storage/crds/token_store.go:19-43 | Adds the token with the given time to live, created now; refused exactly if the name is taken |
| TokenExpiry.CrdStore.GetToken | pkg/storage/crds/token_store.go:61-82 | Reports the token with the time left, if any is left; a missing and an expired token are told apart |
| TokenExpiry.CrdStore.ListTokens | pkg/storage/crds/token_store.go:84-100 | One entry for each stored item, in any order, a hole for each expired one |
| TokenExpiry.CrdStore.UpdateToken | pkg/storage/crds/token_store.go:102-125 | Applies the mutator once, to the last write that got in between or else to the stored token, stores and returns the outcome and touches no other token; succeeds exactly for a stored token that nobody deletes meanwhile, within the budget |
| TokenExpiry.CreateThenGet | pkg/storage/crds/token_store.go:19-43 | A token is reported as it was made with the time left, until its time is over and no longer, and no other report changes |
| TokenExpiry.RemoveThenGet | pkg/storage/crds/token_store.go:45-59 | A removed token is not reported, no other report changes, and collecting changes none |
| TokenExpiry.UpdateThenGet | pkg/storage/crds/token_store.go:102-125 | An updated token is reported as the mutator made it with the same time left, and no other report changes |
| TokenExpiry.EtcdStore.CreateToken | pkg/storage/etcd/token_store.go:18-48 | Grants a lease and stores the token under it |
| TokenExpiry.EtcdStore.GetToken | pkg/storage/etcd/token_store.go:80-99 | Reports the token with its lease id and the time its lease has left |
| TokenExpiry.EtcdStore.AddLeaseMetadata | pkg/storage/etcd/token_store.go:159-175 | Fills in the lease id and the remaining time |
| TokenExpiry.EtcdStore.ListTokens | pkg/storage/etcd/token_store.go:101-120 | One entry for each stored key, in any order, without holes |
| TokenExpiry.EtcdStore.DeleteToken | pkg/storage/etcd/token_store.go:50-73 | Deletes the key and its lease and no other key; succeeds exactly for a stored token |
| TokenExpiry.EtcdStore.UpdateToken | pkg/storage/etcd/token_store.go:122-157 | An attempt without interference stores and returns the mutated token under its old lease |
| TokenExpiry.CrdCommutes | pkg/storage/crds/token_store.go:19-148 | Each step of the CRD store is that step of the simple store |
| TokenExpiry.EtcdCommutes | pkg/storage/etcd/token_store.go:80-175 | Each step of the etcd store is that step of the simple store, and every key keeps its own lease |
| TokenExpiry.RunsRefine | pkg/storage/etcd/token_store.go:80-175 | Through every run both backends stand for the same simple store |
| TokenExpiry.BackendsAgree | pkg/storage/crds/token_store.go:61-82 | After every run both backends answer a lookup alike, up to the lease id |
| TokenExpiry.ListsAgree | pkg/storage/crds/token_store.go:84-100 | After every run the present entries of both backends' lists are the same tokens, each as often, up to the lease id, in whatever order the keys are listed |
| TokenExpiry.DeadlineIsFixed | pkg/storage/crds/token_store.go:102-148 | No run moves a token's deadline |
| TokenExpiry.RemainingTime | pkg/storage/crds/token_store.go:139-148 | The reported time falls by exactly the time passed, updates do not touch it, and an expired token never reappears |
| TokenExpiry.GatewayMutatorsAreBlind | pkg/bootstrap/server.go:212-242 | The gateway's token mutators do not look at lease data |
| TokenExpiry.UpdatesAgreeIff | pkg/storage/crds/token_store.go:102-125 | Updates of both backends find the token or both do not, exactly unless it is expired and uncollected; what they return is equal but for the lease and the time to live, and those are stated |
| TokenExpiry.ExpiredUpdateDiffers | pkg/storage/crds/token_store.go:102-125 | An expired, uncollected token is still updated by the CRD store and by etcd not |
| ClusterWatch.Watcher.Start | pkg/management/clusters.go:59-65 | Takes the client's list exactly when every cluster on it is stored |
| ClusterWatch.Watcher.Announce | pkg/management/clusters.go:72-88 | Announces exactly the newly listed ids, each once; it stops early exactly when there are more of them than the stream takes |
| ClusterWatch.Watcher.Forget | pkg/management/clusters.go:89-99 | Deletes exactly the ids no longer listed, each once, in any order; it stops early only when the tick needs more events than the stream takes |
| ClusterWatch.Watcher.OnTick | pkg/management/clusters.go:70-99 | A completed tick's events replay to exactly its listing, one event per difference; a tick is given up only when it needs more events than the stream takes, and all it sent belongs to its difference |
| ClusterWatch.WatchClusters | pkg/management/clusters.go:52-104 | The stream replays without a wrong addition or deletion; each completed tick sends one event per difference from the listing before and gives exactly its own listing; the first tick not completed has a failed listing or needs more events than the stream takes |
| UserInfoCache.Cache.constructor | pkg/auth/openid/cache.go:42-48 | A new cache is empty and its maps are inverse |
| UserInfoCache.Cache.Get | pkg/auth/openid/cache.go:51-90 | Keeps the maps inverse; answers from the cache, else stores the answer and drops whatever else the user had cached; a failed call changes nothing |
| UserInfoCache.UserIsClaim | pkg/auth/openid/cache.go:15-20 | The user is the value of the identifying claim, if that is there |
| UserInfoCache.AnswerIs | pkg/auth/openid/cache.go:51-90 | A cached token gets what is cached; another gets what the provider sends, which is then cached and known under its identifying claim; no answer exactly if the provider fails or sends no such claim |
| UserInfoCache.AnswersWereSent | pkg/auth/openid/cache.go:51-90 | In every run every answer is something the provider sent for the token asked about |
| UserInfoCache.NeverTheSameToken | pkg/auth/openid/cache.go:77-84 | On a miss the token known for the user is never the one asked for |
| UserInfoCache.StoreKeepsInverse | pkg/auth/openid/cache.go:77-88 | Storing an answer keeps the maps inverse |
| UserInfoCache.StepRefines | pkg/auth/openid/cache.go:51-90 | One call is one step of a cache with a single session per user |
| UserInfoCache.RunRefines | pkg/auth/openid/cache.go:51-90 | In every run the maps are inverse and every answer is that of the single-session cache |
| UserInfoCache.OneTokenPerUser | pkg/auth/openid/cache.go:51-90 | In every run a user has at most one cached token and there are as many cached tokens as known users |

## Left out

- Strength of X25519, blake2b, ed25519 and SHA-256, and the signing algorithm of JWS; keys, MACs and signatures are symbols or parameters.
- Bootstrap requests that overlap for the same cluster.
- JSON, YAML and protobuf encodings; the JSON form of a token is a parameter, stored records are values.
- The parsing of the JWS protected header, and base64 variants other than the unpadded URL alphabet in JWS parts.
- Path cleaning in the cluster, token and role stores, whose ids are validated or random, and key prefixes of listings.
- The wrap-around of the 64-bit usage count and of times.
- Backoff timings; only the number of attempts counts.
- Panics on nil metadata, on a compact message without dots, and on a secret that is not 64 bytes long.
- Delimiters of more than one character in the tenant header; every use has one character.
- The algorithm of `sort.Slice`; insertion of each id stands for it.
- `cmp.Equal` on rule groups is equality of values, and the parts of rule nodes that cloning copies shallowly are values.
- The fake keyring that is tried for unknown clusters, which only takes time.
- The waiting loops of the cluster watch and of the notifier's removal thread around a cancelled context, beyond the event of the cancellation.
- Agent rule streaming, metrics collection, HTTP, TLS, gRPC, plugins, CLI, configuration and Kubernetes resources.
- Notifier.NoDeadlock: liveness under a fair scheduler is not stated, only that some thread on the waiting chain can run.
- Bootstrap.Gateway.HandleBootstrapAuth: the stores' update calls are single steps here, since requests are serial; their retry loops are modelled on their own. The authorization is given as what `JoinToAuth.Authorize` reads from the header.
- UpdateLoop.StoredKey.Update: the object handed to the mutator is a value; a commit whose reply is lost although it took effect is not modelled.
- TokenExpiry.EtcdStore.CreateToken: time is in whole seconds, and etcd's own minimum for the length of a lease is not modelled; a lease of no time is gone at once.
- TokenExpiry.EtcdStore.UpdateToken: one attempt without interference; retries and interference are the subject of `UpdateLoop`.
- BootstrapInvariants.UsageIsCounted: a failed store call of the bootstrap handlers is taken to have had no effect; a write that took effect although its reply was lost is not modelled. The same holds for all results about failing calls.
- NotifierDelivery.EveryChangeInOrder: what a copy leaves out of a group is one number, and intervals are not told apart from rules.
- RuleClone.CloneRuleGroup: the fields of a group that copying leaves at zero are one number.
