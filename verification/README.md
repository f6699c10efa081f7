# Viewpoint: a verified model

Viewpoint starts a private Ethereum network: a server deploys bootnodes, an execution node, and, on request, beacon and
validator nodes in containers. Validator accounts are kept in *tranches*. The documentation promises that each validator
client owns a single tranche (`README.md`, line 22). This project models the parts of the program that hold state and
proves that promise, and what it rests on, over every run of the server with failures at any sub-step.

`dafny verify dfyconfig.toml` checks everything.

## Structure

| file | what it models |
|---|---|
| `server.dfy` | the server as a class that appends to its node list, fills its tranche map and consumes tranches through the pointer that is also in the map; every method is proved against `control_plane.dfy` |
| `control_plane.dfy` | each request as a function of the state and of the outcomes the program does not control |
| `control_plane_proofs.dfy`, `control_plane_runs.dfy`, `control_plane_theorems.dfy` | the invariant, what one request does, and what holds in every reachable state |
| `deposit_protocol.dfy`, `deposit_theorems.dfy` | the goroutines of any number of overlapping `MakeDeposits` calls as a step machine with the shared nonce, the error channels, the pending pool and the chain |
| `deposit_success.dfy` | when goroutines and calls succeed, and that they can |
| `deposit_calls.dfy` | one call among overlapping ones: what it added to the deposit log |
| `deposit_liveness.dfy` | every call returns under every weakly fair schedule |
| `deposit_handler.dfy` | the sequential code of one goroutine: nonce, transaction, receipt polling |
| `funding.dfy` | control plane and deposit protocol joined: running keys are funded |
| `clique_genesis.dfy` | `Eth1Genesis.Build`: in-place sort and Clique extra-data (EIP-225, Specification) |
| `genesis.dfy` | the consensus genesis state and the registry root (Merkleization in `simple-serialize.md` of the consensus-specs) |
| `container_spec.dfy`, `components.dfy` | the mutable container description, the client factories, and the keys each client loads from the installed files |
| `docker_retry.dfy` | the readiness loop, alone against an ideal clock and side by side with the goroutine that waits for the container |
| `paths.dfy` | rooted paths as text and as the components they lead to: `Split`, `Clean`, `Join`, and the net effect of a path |
| `docker_files.dfy` | the loops of `Deploy` that make the mounts' directories and write the files, against the files and directories of the host |
| `placement_order.dfy` | when the result depends on the orders of map iteration |
| `bind_mounts.dfy`, `container_files.dfy` | what a container sees through one bind mount, and what it finds over all of them |
| `clean_layouts.dfy` | the layouts in which a container sees exactly its own files |
| `deployment.dfy` | the containers of the client factories have such layouts, so each loads its keys from what it sees |
| `text.dfy`, `keys.dfy`, `go_integers.dfy`, `wrappers.dfy` | printing, accounts, 64-bit conversions, result types |

## Reading the model

* Everything the program cannot decide is an outcome in an environment value (`Env`, `StartEnv`): which accounts are
  generated, whether deposits, file writes, key encryption, the log file or the container start succeed, which address a
  container gets. All theorems hold for all outcomes. One assumption is made about them: generated public keys are new
  (`Possible`, `StartFresh`), because `internal/server/proto/account.go` draws them at random.
* A state is `Reachable` when a `Trace` ends in it: start-up, then requests, each taking the state before it to the one after.
* `State.issued` is ghost history: all public keys ever generated, also for tranches whose creation failed.
* An `Action` of the deposit protocol is one atomic step of one goroutine, of a `MakeDeposits` collector or of the chain, so
  a run is an arbitrary interleaving. The chain executes the funding key's transactions in nonce order (Yellow Paper,
  section 6). A deposit transaction either reverts or logs one deposit event.
* A schedule is weakly fair when it does not for ever pass over a goroutine that can always move or a collector that always has
  a result to take. The moves of a goroutine that waits for its deposit are the execution of the deposit and the end of the
  wait, so fairness includes that one of the two comes.
* The host is a set of directories and a map of files; `writes` says for each file whether its writing fails for a reason
  that is not in the model, such as a full disk.
* The clients are modelled by what they read: `LoadedKeys`, `ConfigFile`, `GenesisFile`, `BootnodeOf` and `HostPort` take a
  container's command, look up the flags each client documents, and read the files these name. An address of the execution
  node does not begin with a dash, so it cannot be taken for a flag.
* `Clean`, `Join`, `ToLower`, `Title` and the `%d` and hex printers stand for the library functions of those names on the
  inputs that occur: rooted paths and ASCII text.
* The size of a count in a request is a `uint64`; its conversion to a loop bound is `LoopCount`.

## Where the code and its promises differ

* `README.md`, line 58, asks that `num-tranches` be a multiple of the genesis validator count. The code requires the count
  to be a multiple of the tranches (`internal/server/server.go:53`); the model follows the code.
* `accountStore.AddKey` reports a key it cannot marshal, but `NewPrysmValidator` ignores the report. A Prysm container then
  runs without that key although its construction succeeds (`PrysmDropsKey`); it runs exactly its accounts' keys if and
  only if all of them marshal (`ContainerRunsItsKeys`). `createTranche` lets no tranche through in which one does not.
* `Deploy` ranges over two Go maps, so its outcome can depend on their orders. The mount choice does not exactly when no path
  has two matching mounts (`ChoiceOrderFree`; `NestedMountsCompete` has an input where it does). That is not enough: two
  spellings of one path, `/data/a` and `/data//a`, still overwrite each other (`TwoSpellings`). When the placement can
  succeed, its result, success included, is the same for all orders exactly when files that may end up in the same place
  have the same content and every place where a file may end up gets one in any case (`OutcomeOrderFree` for what the writes
  leave, `ResultOrderFree` for the loop).
* `Deploy` matches mounts by prefix alone and binds every mount. After a successful placement the container finds a file where
  the file's path leads exactly when the path goes on at the end of a name of the file's mount, its rest enters the mount and
  never leaves it, and no other mount is met on the way (`FoundAtItsPath`). `/data2/f` and `/data/../x` under `/data` are not
  found, and neither is `/data/keys/x` when `/data/keys` is a mount too and the file went to `/data` (`KeysAreHidden`). A
  path that leads to the mount itself makes the placement fail (`MountIsNoFile`). All this is for mounts that are clean up to
  a trailing slash and new sibling directories of which none has by chance the last name of its mount; `SameNameComesBack`
  shows what happens then. Of two mounts at the same path either may decide, so a file counts as found only if both lead to
  it.
* A file that another one needs as a directory, as `/data/a` and `/data/a/b`, makes the placement fail in either order
  (`PlaceFiles`, `CertainSuccess`).
* The containers of all clients meet all these conditions (`ValidatorFilesClean`, `BeaconFilesClean`): their placement fails
  only for reasons of the host, and they see exactly the files of their description (`CleanContainerSees`).
* The response of `DepositCreate` never gets the index of its tranche; it is always 0.

## Model

| member | source | states |
|---|---|---|
| ControlPlaneTheorems.ConsumedTranchesAreOwned | internal/server/server.go:433-477 | in every reachable state consumed tranches and registered validators are in bijection by the recorded name |
| ControlPlaneTheorems.NoKeyRunTwice | internal/server/server.go:420-478 | no two registered validators load keys with the same public key by their command from their files |
| ControlPlaneTheorems.NoKeySeenTwice | internal/server/server.go:420-478 | no two registered validators load keys with the same public key by their command from what their containers see |
| ControlPlaneTheorems.NamesNumbered | internal/server/server.go:363-394 | names are unique; the k-th registered beacon or validator carries its number and client; system names stay with the system nodes |
| ControlPlaneTheorems.ValidatorsHaveBeacons | internal/server/server.go:421-460 | every registered validator is pointed at an earlier registered beacon of its own client |
| ControlPlaneTheorems.TranchesSeparate | internal/server/server.go:304-317 | tranche indices are exactly 0..n-1; no two tranches share a file or a public key |
| ControlPlaneTheorems.RunExtends | internal/server/server.go:340-521 | along every run nodes, indices, accounts and files are kept and an owner, once set, never changes |
| ControlPlaneTheorems.StepExtends | internal/server/server.go:340-521 | one request, whatever fails in it, keeps the invariant and everything earlier |
| ControlPlaneTheorems.StartInv | internal/server/server.go:50-111 | a server that comes up satisfies the invariant and has exactly the genesis tranches in order |
| ControlPlaneTheorems.ReachableInv | internal/server/server.go:26-48 | the invariant over nodes, tranches and ownership holds in every reachable state |
| ControlPlaneTheorems.TraceInv | internal/server/server.go:340-521 | in every trace, start-up followed by requests, each state satisfies the invariant and extends the first |
| ControlPlaneTheorems.RunIsReachable | internal/server/server.go:50-111 | a server that came up and served any requests is in a reachable state |
| ControlPlaneTheorems.TraceIsRun | internal/server/server.go:340-521 | the states of a trace are those its requests lead to, so nothing else is reachable |
| ControlPlaneTheorems.TrancheOf | internal/server/server.go:475-477 | a registered validator's tranche, and that its container loads exactly that tranche's keys |
| ControlPlaneTheorems.RegistryPartition | internal/server/server.go:150-161 | registry entry i is account i mod k of tranche i div k |
| ControlPlaneTheorems.RegistrySize | internal/server/server.go:152-161 | the registry has the configured size iff both loop counts fit an int, or the size is 0 |
| ControlPlaneRuns.NodeDeployAtomic | internal/server/server.go:359-521 | a request succeeds iff every sub-step does; it then commits (exactly the beacons, then the validator, one tranche consumed) or aborts (beacons only, nothing consumed, at most one new free tranche) |
| ControlPlaneRuns.UnsupportedChangesNothing | internal/server/server.go:404-407 | a request for an unsupported client changes no node, tranche or issued key |
| ControlPlaneRuns.RequestedImages | internal/server/server.go:372-381 | every node a request registers runs the requested repository and tag, or the client's own where none is given, and carries the common labels |
| ControlPlaneRuns.DepositCreateExact | internal/server/server.go:340-357 | succeeds iff deposits, marshalling and file write do; then the next tranche has the accounts, its own file and no owner, otherwise no tranche changes |
| ControlPlaneRuns.RegisteredBeaconSupported | internal/server/server.go:461-464 | a beacon found by its client label shows that the client has factories |
| ControlPlaneRuns.ValidatorPart | internal/server/server.go:504-515 | when deploying the validator succeeds, with which beacon, and what it leaves when it fails |
| ControlPlaneRuns.ValidatorDeployedTo | internal/server/server.go:433-477 | with a beacon at hand it succeeds iff a tranche is available, its keys encrypt and the container starts |
| ControlPlaneRuns.TrancheObtained | internal/server/server.go:433-450 | selecting needs an existing unconsumed tranche, creating needs deposits, marshalling and the file; nothing is consumed yet |
| ControlPlaneRuns.BeaconsAdded | internal/server/server.go:495-501 | the loop appends beacons of the client numbered on without gaps, also when it stops early |
| ControlPlaneRuns.BeaconsSucceed | internal/server/server.go:495-501 | the loop succeeds iff there is nothing to deploy or the client is supported and every container starts |
| ControlPlaneRuns.PickedBeacon | internal/server/server.go:423-430 | the target is a registered beacon with the client label, missing only if there is none |
| ControlPlaneProofs.NamesDistinct | internal/server/server.go:394-452 | no two nodes of a list that satisfies the invariant share a name |
| ControlPlaneProofs.CreateKeepsInv | internal/server/server.go:285-318 | creating a tranche keeps the invariant wherever it fails |
| ControlPlaneProofs.AppendBeacon | internal/server/server.go:229-234 | registering a correctly numbered beacon keeps the invariant |
| ControlPlaneProofs.AppendValidator | internal/server/server.go:470-477 | registering a validator together with consuming its tranche keeps the invariant |
| ControlPlane.NodeNameInjective | internal/server/server.go:394-452 | equal node names carry equal numbers, whatever the clients |
| ControlPlane.TranchePathInjective | internal/server/server.go:304-305 | equal tranche file names carry equal indices |
| Funding.RunningKeysAreFunded | internal/server/server.go:288-292 | every key a registered validator runs is of a genesis account or has its deposit in the contract's log |
| Funding.ReturnedFunds | internal/server/deposit_handler.go:148-161 | a MakeDeposits call that returned nil left a logged deposit for each of its accounts |
| Funding.TraceKeepsFunded | internal/server/server.go:285-318 | along every trace each tranche made after start-up has all its deposits logged |
| Funding.NewTrancheIsDeposited | internal/server/server.go:285-318 | a request adds only tranches with the accounts it generated and after their deposits |
| DepositTheorems.RunKeepsInv | internal/server/deposit_handler.go:47-211 | every interleaving keeps the invariant over nonces, transactions, chain, deposits and channels |
| DepositTheorems.NoncesInOrder | internal/server/deposit_handler.go:56-69 | the t-th nonce taken is t wrapped to 64 bits; nonces are distinct iff at most 2^64 were taken |
| DepositTheorems.DeploymentHoldsZero | internal/server/deposit_handler.go:119-128 | exactly the contract deployment holds nonce 0, and it has executed before any deposit goroutine exists |
| DepositTheorems.ExecutableExactly | internal/server/deposit_handler.go:71-84 | a transaction can still execute iff no nonce up to its own was lost to a sign, encode or send failure |
| DepositTheorems.ExecutedExactly | internal/server/deposit_handler.go:71-84 | once nothing is held and the next nonce is not in the pool, executed are exactly those below the least lost nonce |
| DepositTheorems.LostStays | internal/server/deposit_handler.go:71-84 | a lost nonce is never sent again |
| DepositTheorems.CanExecute | internal/server/deposit_handler.go:81-84 | a run that executes a transaction with no lost nonce before it |
| DepositTheorems.PushNeverBlocks | internal/server/deposit_handler.go:149-153 | a goroutine about to report always finds room in its channel, also after an early return |
| DepositSuccess.NilExactly | internal/server/deposit_handler.go:148-161 | along every run a call that has returned has returned nil iff for each of its goroutines the run holds the funding receipt and a parsed receipt of its logged deposit |
| DepositSuccess.SucceededExactly | internal/server/deposit_handler.go:173-211 | along every run a goroutine has succeeded iff the run holds its funding receipt and a parsed receipt taken while its deposit is logged |
| DepositSuccess.CanSucceed | internal/server/deposit_handler.go:148-211 | a call whose goroutines have neither failed nor had a deposit reverted, with no nonce lost and nonces enough, can return nil with all its accounts logged |
| DepositSuccess.FirstCallCanSucceed | internal/server/deposit_handler.go:26-40 | from the start, a first call for any accounts, fewer than there are nonces, can return nil with all of them logged |
| DepositTheorems.ResultExact | internal/server/deposit_handler.go:148-161 | a call returns nil iff all its goroutines succeeded, and then each of their deposits is logged |
| DepositCalls.CallAddsItsAccounts | internal/server/deposit_handler.go:148-161 | a call that returned nil added to the log exactly the multiset of its accounts, whatever overlapping calls did |
| DepositCalls.CallLogEnumerates | internal/server/deposit_handler.go:149-154 | the goroutines a successful call logged are exactly its own, each once |
| DepositCalls.ReachablePlaced | internal/server/deposit_handler.go:149-154 | in every reachable state goroutine i of a call works for account i, and no goroutine is outside a call |
| DepositTheorems.RoundsAddUp | internal/server/deposit_handler_test.go:52-64 | when all calls returned nil the deposit log is a permutation of all their accounts, so its length is the sum of the batch sizes |
| DepositTheorems.SelectPermutes | internal/server/deposit_handler_test.go:52-64 | naming every index exactly once permutes the accounts |
| DepositLiveness.FairSchedulesReturn | internal/server/deposit_handler.go:148-161 | every call returns under every infinite schedule that is weakly fair to each goroutine and each collector |
| DepositLiveness.WeaklyFairIsFair | internal/server/deposit_handler.go:148-161 | weak fairness to goroutines and collectors never passes over an open call for ever |
| DepositLiveness.FairCallReturns | internal/server/deposit_handler.go:148-161 | a call returns under every schedule that does not pass it over for ever |
| DepositLiveness.OpenCallMoves | internal/server/deposit_handler.go:148-161 | while a call is open one of its own steps can be taken, so a call that cannot move has returned |
| DepositLiveness.CallStepsBounded | internal/server/deposit_handler.go:148-161 | after its start a call takes at most POLLS + 9 steps for each account, whatever else happens |
| DepositLiveness.GoroutineMoves | internal/server/deposit_handler.go:173-211 | a goroutine that has not ended can always move |
| DepositTheorems.NeverDeadlocks | internal/server/deposit_handler.go:148-161 | from every reachable state some run makes an open call return |
| DepositTheorems.CanReturn | internal/server/deposit_handler.go:148-161 | a run of steps, none of them refused, after which the call has returned |
| DepositTheorems.StepsBounded | internal/server/deposit_handler.go:173-211 | a goroutine takes at most POLLS + 8 own steps, whatever the others do |
| DepositTheorems.StepKeepsInv | internal/server/deposit_handler.go:47-211 | each single step keeps the invariant |
| DepositTheorems.ReceiveKeepsChannel | internal/server/deposit_handler.go:156-161 | taking a result keeps counts of members, reports and successes in step with the channel |
| DepositTheorems.StartKeepsChannel | internal/server/deposit_handler.go:149-154 | so does starting a call while goroutines of earlier calls still run |
| DepositTheorems.PushKeepsChannel | internal/server/deposit_handler.go:152 | so does reporting |
| DepositProtocol.StepKeepsNonces | internal/server/deposit_handler.go:56-58 | the counter and all nonces taken stay the wrapped sequence 0, 1, 2, ... |
| DepositProtocol.StepKeepsOwners | internal/server/deposit_handler.go:60-90 | every transaction has one owner and is held only by the goroutine about to send it |
| DepositProtocol.StepKeepsChain | internal/server/deposit_handler.go:81-84 | executed are always exactly the transactions below the chain's nonce |
| DepositProtocol.StepKeepsDeposits | internal/server/deposit_handler.go:196-210 | the log lists each successful deposit once, and success is reported only for those |
| DepositHandler.WaitForReceipt | internal/server/deposit_handler.go:92-111 | at most 122 polls with a sleep between any two; yields the first deciding answer iff it is among the first 122, otherwise a timeout |
| DepositHandler.Handler.GetNextNonce | internal/server/deposit_handler.go:56-58 | the counter step is the one of the protocol |
| DepositHandler.Handler.SendTransaction | internal/server/deposit_handler.go:60-90 | missing fields get defaults, a nonce is taken iff the transaction has none, also when a later step fails; the result is that of the first failing step or of the polling |
| DepositHandler.Handler.DeployDeposit | internal/server/deposit_handler.go:119-128 | the first transaction of a handler takes nonce 0 |
| Server.Server.NodeDeploy | internal/server/server.go:359-521 | new state and success are those of the control plane; the response has exactly the name, address and labels of each appended node in order |
| Server.Server.DeployValidator | internal/server/server.go:420-478 | refines the control plane for a given or a picked beacon |
| Server.Server.DeployValidatorTo | internal/server/server.go:433-478 | refines the control plane once the beacon is known |
| Server.Server.LaunchAndConsume | internal/server/server.go:452-477 | on success one validator node is appended and the tranche gets its name; on failure neither |
| Server.Server.Consume | internal/server/server.go:475-476 | writing through the tranche pointer changes that entry of the map and no other |
| Server.Server.ObtainTranche | internal/server/server.go:433-450 | refines the control plane; the result is the object stored in the map |
| Server.Server.DeployBeacons | internal/server/server.go:492-502 | refines the control plane; the stubs are those of the appended nodes |
| Server.Server.DeployBeacon | internal/server/server.go:393-418 | appends the beacon with the next number iff the client is supported and the container starts |
| Server.Server.DeployRequested | internal/server/server.go:372-391 | name, overrides, labels and default tag of what is registered |
| Server.Server.DeployNode | internal/server/server.go:220-235 | a node is registered iff the log file and the deployment succeed |
| Server.Server.NumOfNodes | internal/server/server.go:363-368 | counts the registered nodes with the type label |
| Server.Server.BeaconsOf | internal/server/server.go:249-257 | exactly the registered beacons of the client, the picked one first |
| Server.Server.CreateTranche | internal/server/server.go:285-318 | refines the control plane; the result is a new object at the next index |
| Server.Server.PrivateKeys | internal/server/server.go:295-302 | all keys in hex and in order, or failure iff some key does not marshal |
| Server.Server.DepositCreate | internal/server/server.go:340-357 | refines the control plane; the response shows the new tranche under index 0 |
| Server.Server.DepositList | internal/server/server.go:320-338 | for every map order each index is listed exactly once with its own contents, or the listing fails iff a key does not marshal |
| Server.ToStub | internal/server/server.go:265-278 | the stub shows owner and file, and decoding its accounts gives back the keys in order; failure iff a key does not marshal |
| Server.Server.DeploySystem | internal/server/server.go:76-94 | the three system nodes in order, iff all three start |
| Server.Server.CreateGenesisTranches | internal/server/server.go:154-161 | the tranches of the control plane and all their accounts in order |
| Server.Server.SetupGenesis | internal/server/server.go:150-199 | when the genesis state exists, that it is well formed for exactly the tranche accounts, and its fork, version, time and block |
| Server.NewServer | internal/server/server.go:50-111 | when a server comes up, in which state, and that its genesis state fits its tranches, its configuration and the latest block |
| Server.Server.NodeList | internal/server/server.go:535-550 | one stub for each node in order, with the node's name, address and labels |
| Server.StatusOfListed | internal/server/server.go:552-575 | in every reachable state listed names are distinct, and the status of a listed name is that very stub |
| Server.Server.NodeStatus | internal/server/server.go:552-575 | a stub of that name for the last node of that name, or an error for the empty name |
| Server.Serve | internal/server/server.go:340-521 | any sequence of requests on the object leads to the state the runs of the control plane lead to |
| Server.ListingNeverFails | internal/server/server.go:265-278 | in every reachable state all tranche keys marshal |
| Server.StubShowsNode | internal/server/server.go:577-597 | the stub of every registered node shows its kind and its client |
| Server.ListsOneMore | internal/server/server.go:325-332 | adding the stub of an unlisted index keeps the listing exact |
| CliqueGenesis.Eth1Genesis.Build | internal/components/eth1.go:128-142 | fails iff there are no signers and then changes nothing; otherwise sorts in place and sets the extra-data |
| CliqueGenesis.SortSlice | internal/components/eth1.go:134-136 | an ascending permutation, in place |
| CliqueGenesis.CompareAntisymmetric | internal/components/eth1.go:135 | the comparison is antisymmetric and 0 only for equal addresses |
| CliqueGenesis.LeqTransitive | internal/components/eth1.go:135 | and transitive, so it orders addresses totally |
| CliqueGenesis.CompareIsNumeric | internal/components/eth1.go:135 | addresses are ordered as the numbers they spell |
| CliqueGenesis.BuiltAscends | internal/components/eth1.go:134-136 | the signers of a built genesis ascend as numbers |
| CliqueGenesis.SortedUnique | internal/components/eth1.go:134-136 | a multiset of addresses has one ascending order |
| CliqueGenesis.BuildIsCanonical | internal/components/eth1.go:133-142 | two signer lists give the same extra-data iff they are permutations of each other |
| CliqueGenesis.BuildIsReadable | internal/components/eth1.go:133-142 | reading the extra-data back gives the ascending permutation; building again changes nothing |
| CliqueGenesis.PrintThenParse | internal/components/eth1.go:137-142 | reading the printed extra-data gives the signers between empty vanity and seal; the length is 97 + 20 N bytes |
| CliqueGenesis.PrintedBytes | internal/components/eth1.go:137-142 | the extra-data is 32 bytes of vanity, the addresses, and 65 bytes of seal |
| CliqueGenesis.ParseThenPrint | internal/components/eth1.go:137-142 | every readable text with empty vanity and seal is, in lower case, the print of its signers |
| Genesis.GenerateGenesis | internal/genesis/genesis.go:33-126 | when a state is generated; validator i has the public key of account i, 32 * 10^9 of effective balance and balance, is active from epoch 0 on and never withdrawable; fork, time and block are the input's |
| ControlPlaneTheorems.RegistryKeys | internal/server/server.go:150-199 | the registry's public keys are distinct and exactly those of all tranches of the server that has come up |
| Genesis.RegistryRootIsSsz | internal/genesis/genesis.go:133-158 | the registry root is the SSZ one: pad with zero chunks, hash neighbours layer by layer, then hash in the length |
| Genesis.RootIsLayers | internal/genesis/genesis.go:151 | the tree from the root down is the one from the leaves up |
| Genesis.HashTreeRoot | internal/genesis/genesis.go:133-158 | the hasher's pushes leave exactly the root of a List[Validator, 2^40]; the outer merkleization changes nothing |
| Genesis.RegistryRootCommits | internal/genesis/genesis.go:133-158 | with a collision-free hash the root determines length and all elements in order |
| Genesis.RootBinds | internal/genesis/genesis.go:151 | equal tree roots of equally many chunks have equal chunks |
| Genesis.PaddingIsInvisible | internal/genesis/genesis.go:151 | without the length a trailing zero chunk does not show |
| Genesis.RegistryDepth | internal/genesis/genesis.go:129 | the list limit is 2^40 and gives a tree of depth 40 |
| Genesis.FlattenPartitions | internal/server/server.go:154-161 | with k accounts a tranche, account i is number i mod k of tranche i div k |
| Components.ContainerRunsItsKeys | internal/components/eth2_teku.go:49-82 | reading its command and its files, a validator container loads exactly its accounts' keys, for Prysm iff every key marshals |
| Components.ValidatorReadsConfig | internal/components/eth2_lighthouse.go:50-66 | the configuration file that a validator's command names holds the configured chain specification |
| Components.BeaconReadsConfig | internal/components/eth2_prysm.go:13-53 | the files and values that a beacon's command names are the configured chain specification, genesis state, execution address and bootnode |
| Components.DirectoryHoldsKeys | internal/components/eth2_lighthouse.go:68-80 | a client that reads a key directory finds exactly the keys: none overwritten, dropped or added |
| Components.KeyFilesInstalled | internal/components/eth2_teku.go:71-80 | after the loop every account has its key file and its password file |
| Components.KeyFilesOrigin | internal/components/eth2_teku.go:71-80 | every file is a configuration file or belongs to an account |
| Components.PubNamesDistinct | internal/components/eth2_lighthouse.go:70-71 | distinct public keys give distinct Lighthouse names |
| Components.IndexNamesDistinct | internal/components/eth2_teku.go:77 | distinct indices give distinct Teku names |
| Components.AddLighthouseKeys | internal/components/eth2_lighthouse.go:69-80 | the loop installs all key files iff every encryption succeeds |
| Components.AddTekuKeys | internal/components/eth2_teku.go:71-80 | the loop installs all key files iff every encryption succeeds |
| Components.NewLighthouseValidator | internal/components/eth2_lighthouse.go:49-82 | the description it builds, or failure iff an encryption fails |
| Components.NewTekuValidator | internal/components/eth2_teku.go:49-82 | the description it builds, or failure iff an encryption fails |
| Components.NewPrysmValidator | internal/components/eth2_prysm.go:60-95 | the description it builds, or failure iff the one encryption fails |
| Components.AccountStore.AddKey | internal/components/eth2_prysm.go:103-121 | both lists grow together or, when marshalling fails, not at all |
| Components.PrysmHoldsKeys | internal/components/eth2_prysm.go:60-69 | Prysm's wallet holds exactly the keys that marshal |
| Components.PrysmDropsKey | internal/components/eth2_prysm.go:61-64 | a key that does not marshal is dropped although the construction succeeds |
| Components.NewBeacon | internal/components/eth2_lighthouse.go:12-47 | the beacon description of each client |
| Components.ContainerTalksToBeacon | internal/components/eth2_prysm.go:71-82 | reading the validator's command by its endpoint flag and splitting the value gives back the beacon's address and its port |
| Components.ClientNameIdentifies | internal/server/proto/service.proto:87-92 | a supported client is determined by its label, also among unrecognized numbers |
| ContainerSpec.Spec.WithFile | internal/spec/spec.go:104-126 | sets one file and changes nothing else |
| ContainerSpec.Spec.WithLabel | internal/spec/spec.go:84-90 | sets one label and changes nothing else |
| DockerRetry.RetryFn | internal/docker/docker.go:318-335 | at most timeout / 100 ms handler calls; success iff the last call succeeded; what ends the loop otherwise |
| DockerRetry.ReadyExactlyInTime | internal/docker/docker.go:318-335 | for every scheduler a first success due before timeout and stop is reported, and one due after either is not |
| DockerRetry.Select | internal/docker/docker.go:322-333 | some case no other case precedes, and the preferred one if it may be taken |
| DockerRetry.CallTimeSpaced | internal/docker/docker.go:323 | handler calls start at least 100 ms apart |
| DockerRetry.Node.Run | internal/docker/docker.go:245-262 | records the exit result and closes the wait channel, which may not be closed yet |
| DockerRetry.StoppedIsRecorded | internal/docker/docker.go:245-262 | however run and the loop interleave, "node stopped" comes only after the result was recorded and the channel closed, and it is closed at most once |
| DockerFiles.BuildMounts | internal/docker/docker.go:75-82 | every mount has the directory made for its last occurrence |
| DockerFiles.MountDirsDiffer | internal/docker/docker.go:75-82 | new directories are shared by no two mounts |
| DockerFiles.FindMount | internal/docker/docker.go:86-96 | some matching mount for every map order, none iff there is none |
| DockerFiles.PlaceFiles | internal/docker/docker.go:84-112 | fails iff some file has no mount, a file or directory is in the way of one, or a writing fails by itself; otherwise the host's files are those of some order |
| DockerFiles.StoreMore | internal/docker/docker.go:104-111 | one more file can be stored iff nothing is in the way of it and those before |
| DockerFiles.DiskHolds | internal/docker/docker.go:84-112 | for every order the host holds exactly the places of visited files, each with the content of a file that belongs there |
| PlacementOrder.ChoiceOrderFree | internal/docker/docker.go:84-96 | the mount choice is independent of map order iff no path has two matching mounts |
| PlacementOrder.OutcomeOrderFree | internal/docker/docker.go:84-112 | what the writes leave, when all of them go through, is the same for every choice of mounts and every order of files iff files that may share a place have the same content and every possible place gets a file in any case |
| PlacementOrder.ResultOrderFree | internal/docker/docker.go:84-112 | for any mounts: when the loop can succeed, its result, success included, is the same for all orders iff those outcomes are |
| PlacementOrder.OutcomeIsLeft | internal/docker/docker.go:84-112 | every outcome whose places fit is left by the loop when no writing fails by itself |
| PlacementOrder.MisfitFails | internal/docker/docker.go:84-112 | places that do not fit make the loop fail |
| PlacementOrder.CertainSuccess | internal/docker/docker.go:84-112 | when every possible place gets a file in any case, success is independent of the orders: every file has a mount, nothing is in the way, every writing goes through |
| PlacementOrder.PrefixFreeOutcome | internal/docker/docker.go:84-112 | with mounts that are no prefix of each other: iff files with the same place have the same content |
| PlacementOrder.PrefixFreeSuccess | internal/docker/docker.go:84-112 | with such mounts success is independent of the orders too: every file has a mount, nothing is in the way, every writing goes through |
| PlacementOrder.AttemptIsOutcome | internal/docker/docker.go:84-112 | a successful loop leaves one of these outcomes on top of what the host had |
| CleanLayouts.CleanedRestsDecide | internal/docker/docker.go:101-102 | with sibling directories and rests that stay below their mounts: iff no two files of different content have the same mount and the same cleaned rest |
| CleanLayouts.TwoSpellings | internal/docker/docker.go:84-112 | two spellings of one path: the mount choice is fixed and the outcome still depends on the order |
| PlacementOrder.DisjointMountsNeverCompete | internal/docker/docker.go:91-96 | mounts that are no prefix of each other never match the same path |
| PlacementOrder.NestedMountsCompete | internal/docker/docker.go:91-96 | nested mounts have a path with two placements |
| ContainerFiles.FoundAtItsPath | internal/docker/docker.go:84-112 | after every successful placement, over all binds: the container finds a file where its path leads iff the path goes on at a boundary of its mount, its rest enters the mount and never leaves it, and no other mount is met on the way |
| ContainerFiles.LeadsToItsPlace | internal/docker/docker.go:159-161 | over all binds, for every path a mount prefixes: it leads to the file's place iff it goes on at a boundary, its rest never leaves the mount and no other mount is met |
| ContainerFiles.MountIsNoFile | internal/docker/docker.go:77-111 | a file whose path leads to its mount itself makes the placement fail |
| ContainerFiles.NestedMountHides | internal/docker/docker.go:159-161 | a second mount one name below hides what was placed through the first |
| ContainerFiles.KeysAreHidden | internal/docker/docker.go:159-161 | so `/data/keys/x` placed through `/data` is not found when `/data/keys` is a mount too |
| ContainerFiles.OneBindLeads | internal/docker/docker.go:159-161 | when no other mount can lead to a host path, it is reached iff this one leads there and no other mount is met |
| BindMounts.ShownAtItsPath | internal/docker/docker.go:101-102 | through its own bind alone a file's place is seen where its path leads iff the path goes on at a boundary of the mount and its rest never leaves it |
| BindMounts.SameNameComesBack | internal/docker/docker.go:77-81 | a path that climbs out and comes back by the directory's own name, if that is also the mount's, is seen |
| BindMounts.SamePlace | internal/docker/docker.go:101-102 | files that stay below their mounts go to the same place iff they have the same mount and the same cleaned rest |
| CleanLayouts.CleanPlace | internal/docker/docker.go:101-102 | in a clean layout a file goes to its mount's directory followed by the components after the mount |
| CleanLayouts.PlacesApart | internal/docker/docker.go:101-102 | in a clean layout no file goes to the place of another or below it |
| CleanLayouts.CleanSucceeds | internal/docker/docker.go:84-112 | a clean layout is placed iff no writing fails by itself |
| CleanLayouts.CleanOneOutcome | internal/docker/docker.go:84-112 | a clean layout has one outcome for all orders |
| CleanLayouts.CleanFound | internal/docker/docker.go:84-112 | the container finds each file at its own path |
| CleanLayouts.CleanFoundByAll | internal/docker/docker.go:159-161 | and it does so over all binds, because no other mount is met |
| CleanLayouts.CleanNothingElse | internal/docker/docker.go:159-161 | and finds nothing else below the mount |
| CleanLayouts.ContainerSeesItsFiles | internal/docker/docker.go:159-161 | with one clean mount, what the container sees is exactly the files of its description |
| Paths.JoinWalks | internal/docker/docker.go:102 | where filepath.Join leads: the walk of the rest goes on from the directory |
| Paths.CleanKeeps | internal/docker/docker.go:102 | filepath.Clean keeps where a path leads and is idempotent |
| Paths.WalkNet | internal/docker/docker.go:102 | a walk leaves a number of directories and enters some, independently of where it starts |
| Paths.SplitConcat | internal/docker/docker.go:101 | the components of text cut at any place |
| Deployment.ValidatorFilesClean | internal/components/eth2_lighthouse.go:58-80 | whatever the accounts, the files of a validator container have clean paths below its only mount, none below another |
| Deployment.BeaconFilesClean | internal/components/eth2_lighthouse.go:38-45 | and so have those of a beacon container |
| Deployment.CleanContainerSees | internal/docker/docker.go:84-112 | such a container is placed iff no writing fails by itself, and then sees exactly the files of its description |
| Deployment.KeysInContainer | internal/docker/docker.go:159-161 | the keys a validator client loads by its command from what its container sees are exactly its accounts', for Prysm iff all marshal |
| Text.DecimalRoundTrip | internal/server/server.go:394 | reading a printed natural number gives it back |
| Text.SeparatorSplits | internal/server/server.go:394 | a field without the separator is recovered from the text |
| Text.HexRoundTrip | internal/components/eth1.go:142 | decoding printed bytes gives them back |
| Text.HexDecodeIsPrinted | internal/components/eth1.go:142 | every text that decodes, upper-case digits included, is in lower case the print of its bytes |
| GoIntegers.LoopCountExact | internal/server/server.go:155 | a uint64 count below 2^63 is the loop count; a larger one turns negative and the loop does not run |
| GoIntegers.WrapSuccessor | internal/server/deposit_handler.go:57 | incrementing a wrapped counter wraps the incremented counter |

## Left out

- Container runtime, image pulls, log streams, gRPC, JSON-RPC and file writes: each is an outcome that succeeds or fails.
- Symbolic links and other processes on the host's file system: a path leads where its components say, and the host changes only by the placement.
- Containers that were started but not registered: a deployment can fail after the start, so ownership is stated for registered nodes.
- BLS, ECDSA, keystore encryption, signing, RLP and ABI: a key is its public part and the outcome of marshalling its private part; an encrypted file is a constructor.
- SHA-256: a two-argument function, collision-free where a lemma says so; the root of one validator record is a parameter.
- fastssz: its hasher keeps one entry per 32-byte chunk and its two merkleizations are taken from the SSZ text; its code is not part of this model.
- The genesis state's SSZ bytes, the block body roots and the Altair fields the program does not set; the bytes are the config value `genesisSSZ`.
- GenerateGenesis for the Merge fork yields no state, which the program would go on to encode; the server never asks for that fork.
- The rest of the genesis JSON around the extra-data, the YAML of the chain configuration, and command templates.
- Retry, Output, Entrypoint and WithLabels of a container description.
- The commands, files and keys of the three system containers, beyond name, image, mounts and labels.
- Amounts and balances of funding and deposit transactions; the gas fields are modelled.
- The deposit contract's address, which the handler takes from the deployment receipt.
- ContainerSpec.Spec.WithFile: takes the content as it is; the conversion of other objects by text or JSON marshalling, and the panic when that fails, are not modelled, because all callers pass text or bytes.
- Receipt status: the program does not look at it for funding transactions, and neither does the model; whether the deposit itself reverts is a chain step.
- The wait for a deposit transaction's receipt is in a library; it is a waiting state that a receipt or a failure ends.
- Starting a MakeDeposits call is one step that creates all its goroutines at once; they take their first own step in any order later.
- The server lock: requests are taken one after another, and overlapping MakeDeposits calls are allowed in any number, more than the lock admits.
- NodeStatus for a name no node has: the program dereferences nil, so the method requires a node of that name.
- Requests without a node type and `num-tranches` 0: the program panics.
- Stop and shutdown: unlocked clean-up of what is already there.
- Command-line client, tables and version text: they hold no state.
