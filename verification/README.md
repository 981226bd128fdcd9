# Archon Cloud, modelled and verified

Archon Cloud is a market for decentralised storage. An uploader encodes a file into shards,
chooses storage providers (SPs), pays them through a contract on Ethereum or Neo, and sends
them the shards; each provider checks on the chain that it was paid for what it stores; and
anybody who knows the URL collects enough shards to restore the file. This project models the
parts of that system in which a mistake loses money or data, and proves what they keep.

**The Ethereum contract** (`SafeMath`, `BitFields`, `ArchonModel`, `ArchonPayments`,
`ArchonContract`, `ArchonInvariants`, `ArchonSteps`, `ArchonRuns`, `ArchonRights`,
`ArchonSlashing`, `ArchonExamples`). The class `Archon` executes
the statements of the contract on its mappings, with wrapping 256-bit arithmetic and bit masks,
and is proved to compute the closed forms of `ArchonModel`. A transaction is a tree: when the
contract pays a provider, the provider's own code may make any finite number of further calls,
which may again be paid, and so on, and then accept or fail; a failure undoes the whole branch.
`Linearises` shows that every such tree has the effect of a flat sequence of operations, so that
an invariant of single operations is an invariant of every run, with any re-entrancy. The
invariant gives solvency, the two registries, and an account for each registration that agrees
with the profile and bounds what a provider can ever be paid. `ArchonRights` says exactly which
calls succeed, what only the owner and what only a provider itself can bring about in any run, and
that the books balance to the last coin. `ArchonSlashing` says exactly when three things that one
would expect fail: that good standing means earnings above the slash, that a slash is charged once,
and that a provider in standing can leave; `ArchonExamples` gives runs of a new contract in which
they do.

**The shards** (`Bytes`, `Codecs`, `FileContainer`, `ShardHeaders`, `ShardTransfer`,
`ShardsContainer`, `ShardPipeline`, `CodecInstance`). Bytes are concrete from the file to the
wire, to the provider's disk and back. Only the hash, the checksum, the signature, the
Reed-Solomon code and the mxor code are functions with stated laws (`Env`, `Lawful`,
`LawfulCode`); `CodecInstance` gives functions that satisfy the laws. The main result is
`DownloadSharded`: from any set of at least as many shards as are required, in whatever order,
the client restores exactly the uploaded file, for all three kinds of container, except that a
browser container of 256 shards can never be restored, because its header has one byte for
that number.

**The upload engine and the marketplace** (`StorageProviders`, `Marketplace`, `Scheduler`,
`UploadRuns`, `ClientPrice`). `UploadNeededShards` goes through rounds of at most seven uploads;
the outcome of each upload and the order of the answers are open, and the lemmas of `UploadRuns`
hold of every run it can make. `GetUploadSps` chooses providers whose price is within one
granularity step of the best choice. `ClientPrice` connects the client's price with the checks
of both contracts.

**The pending uploads of a provider** (`PendingUploads`, `PendingRuns`). A handler opens a file, fills
it, and puts its upload into a channel, or fails and deletes the file; the event loop edits its list in
place and removes files too. The lemmas are about any sequence of openings, queueings, failures, receipts
and ticks, with anything that handlers do between two looks of a tick. Nothing is lost or counted twice
(`OnePlace`), but files can be: an upload can be announced although its file is gone, after a removal on
account of an older upload (`NewerFileRemoved`) or after the failure of another handler
(`FileLostToFailure`). `KeepsItsFile` and `DeletesOther` say exactly when.

**Names and profiles** (`Decimals`, `NeoProfiles`, `ArchonUrls`). The profile string on the Neo
chain is read back by the client and by the contract's own scanning loops, and the names under
which shards are stored and announced are unambiguous.

`Arithmetic`, `MapSums` and `Collections` hold the facts on division, sums over maps and finite
collections that the rest needs.
Run-time panics of the Go code are the result `Panicked`, error returns are `Rejected`; a failed
`require` of the contract is `Reverted`, a transfer that its balance cannot cover is `OutOfFunds`.

## Model

| member | source | states |
|---|---|---|
| SafeMath.AddExact | smartContracts/eth/SafeMath.sol:26-31 | the test on the wrapped sum catches every overflow and nothing else, and otherwise the sum is exact |
| SafeMath.SubExact | smartContracts/eth/SafeMath.sol:58-63 | subtraction returns exactly when the difference is not negative |
| SafeMath.MulExact | smartContracts/eth/SafeMath.sol:74-86 | dividing the wrapped product back catches every overflow and nothing else |
| BitFields.MaskShift | smartContracts/eth/Archon.sol:343 | masking n bits at an offset and shifting them down reads those n bits |
| BitFields.FieldsAreByteRanges | smartContracts/eth/Archon.sol:336-354 | each mask-and-shift of the contract is the big-endian number in its byte range of the parameters |
| BitFields.MonthsField | smartContracts/eth/Archon.sol:162-163 | the months are the four most significant bytes |
| ArchonModel.MaxMinAsk | smartContracts/eth/Archon.sol:362-376 | an upper bound of the listed asks that one of them attains, or 0 |
| ArchonPayments.ShareExact | smartContracts/eth/Archon.sol:157-159 | the granularity check passes exactly when the list length divides the payment |
| ArchonPayments.FitsStep | smartContracts/eth/Archon.sol:179-190 | a longer prefix of the list fits exactly when its last entry can be paid after the entries before it |
| ArchonPayments.PayStep | smartContracts/eth/Archon.sol:179-190 | one turn of the loop either extends the paid prefix or shows that the whole list cannot be paid |
| ArchonPayments.CreditStep | smartContracts/eth/Archon.sol:184-187 | crediting a prefix and then its next entry is crediting the longer prefix, also for repeated entries |
| ArchonPayments.SumPaid | smartContracts/eth/Archon.sol:179-190 | after i turns of the loop the total has risen by i shares, however entries repeat |
| ArchonPayments.SumCreditAll | smartContracts/eth/Archon.sol:179-190 | the whole loop raises the total by one share for each listing |
| ArchonContract.ComputeTotalCostExact | smartContracts/eth/Archon.sol:328-360 | the registration cost is the integer formula, or the call reverts because that does not fit into 256 bits |
| ArchonContract.PriceExact | smartContracts/eth/Archon.sol:168-173 | the two checked products of the upload price are exact or revert |
| ArchonContract.Archon.constructor | smartContracts/eth/Archon.sol:66-85 | the state of a new contract |
| ArchonContract.Archon.RegisterSP | smartContracts/eth/Archon.sol:94-137 | computes `Register`, or reverts and then changes nothing that is kept |
| ArchonContract.Archon.RegisterUsername | smartContracts/eth/Archon.sol:203-219 | computes `RegisterName` |
| ArchonContract.Archon.SlashStake | smartContracts/eth/Archon.sol:221-249 | computes `Slash`: standing is kept exactly while there is no stake or the earnings cover the slash |
| ArchonContract.Archon.UpdateCostScalar | smartContracts/eth/Archon.sol:251-270 | only the owner changes a scalar, and only a known one |
| ArchonContract.Archon.ChangeOwner | smartContracts/eth/Ownable.sol:54-73 | only the owner gives up or hands over the contract |
| ArchonContract.Archon.GetMaxMinAskPrice | smartContracts/eth/Archon.sol:362-376 | the loop finds the maximum of the asks |
| ArchonContract.Archon.CheckPayment | smartContracts/eth/Archon.sol:148-176 | all checks on the payment together compute `UploadShare`, in closed form over integers |
| ArchonContract.Archon.SplitPayment | smartContracts/eth/Archon.sol:156-159 | succeeds exactly when the payment divides evenly |
| ArchonContract.Archon.CheckPrice | smartContracts/eth/Archon.sol:168-176 | succeeds exactly when the share reaches the price, overflow included |
| ArchonContract.Archon.PaySPs | smartContracts/eth/Archon.sol:178-190 | the loop credits every listing when the whole list fits, and reverts exactly when it does not |
| ArchonContract.Archon.PayOne | smartContracts/eth/Archon.sol:180-187 | one entry is credited, or the call reverts |
| ArchonContract.Archon.ProposeUpload | smartContracts/eth/Archon.sol:139-200 | computes `Upload` |
| ArchonContract.Archon.UnregisterSP | smartContracts/eth/Archon.sol:273-302 | clears the profile, pays the settlement, and lets the payee's calls happen on the cleared state |
| ArchonContract.Archon.Withdrawal | smartContracts/eth/Archon.sol:304-323 | zeroes the earnings before it pays them |
| ArchonContract.Archon.CallValue | smartContracts/eth/Archon.sol:300-301 | the payee's calls happen in the middle of the transaction; a refusing payee reverts it |
| ArchonContract.Archon.Execute | smartContracts/eth/Archon.sol:88-323 | a call with all the calls inside it has the effect of `Exec`, and a failed one leaves the state as it was |
| ArchonSteps.SurplusKept | smartContracts/eth/Archon.sol:88-323 | no operation lowers balance minus stakes minus earnings |
| ArchonSteps.PayoutCovered | smartContracts/eth/Archon.sol:300-321 | a payout never exceeds what the contract has |
| ArchonSteps.RegistryKept | smartContracts/eth/Archon.sol:100-127 | every operation keeps node ids and registered providers in bijection |
| ArchonSteps.NamesStep | smartContracts/eth/Archon.sol:208-218 | every operation keeps the two user-name mappings inverse |
| ArchonSteps.AccountsKept | smartContracts/eth/Archon.sol:116-318 | every operation keeps each profile in agreement with the account read off the log |
| ArchonSteps.PayoutsKept | smartContracts/eth/Archon.sol:282-323 | every payout agrees with the account that it is made from, and every settlement is bounded by it |
| ArchonSteps.StandingStep | smartContracts/eth/Archon.sol:236-241 | in one operation, lost standing stays lost unless the provider leaves |
| ArchonSteps.EffectKeeps | smartContracts/eth/Archon.sol:88-323 | every successful operation keeps the invariant and goes back on nothing |
| ArchonSteps.DeployedInv | smartContracts/eth/Archon.sol:66-85 | a new contract satisfies the invariant |
| ArchonRuns.Linearises | smartContracts/eth/Archon.sol:300-321 | a transaction with any tree of re-entrant calls is the replay of the operations it committed |
| ArchonRuns.LinearisesAll | smartContracts/eth/Archon.sol:88-323 | so is a list of transactions |
| ArchonRuns.RunKeeps | smartContracts/eth/Archon.sol:88-323 | every run keeps the invariant, the surplus never falls, and no record is taken back |
| ArchonRuns.PayoutsFunded | smartContracts/eth/Archon.sol:300-321 | no payout in the tree of calls lacks funds at the moment it is made, even in a branch that is undone later |
| ArchonRuns.ReachableInv | smartContracts/eth/Archon.sol:66-323 | the invariant holds in every state that a deployed contract can reach |
| ArchonRuns.Solvency | smartContracts/eth/Archon.sol:88-323 | the balance covers all stakes and earnings in every reachable state, and no further transaction can run out of funds |
| ArchonRuns.LifetimePayout | smartContracts/eth/Archon.sol:273-323 | within one registration a provider gets at most stake plus credits, and minus the whole slash if its settlement pays anything |
| ArchonRuns.StorageConserved | smartContracts/eth/Archon.sol:116-185 | free storage plus the sizes of the accepted shards, counted per listing, is the pledged storage |
| ArchonRuns.EarningsConserved | smartContracts/eth/Archon.sol:119-187 | every credit is still earned, was paid out, or was kept back as slash |
| ArchonRuns.RegistryBijection | smartContracts/eth/Archon.sol:100-127 | node ids and registered providers determine each other; who is not registered has no stake, earnings or standing |
| ArchonRuns.LostStanding | smartContracts/eth/Archon.sol:236-241 | standing comes back only by leaving and joining again, and until then only the slash changes, upwards |
| ArchonRuns.UserNames | smartContracts/eth/Archon.sol:203-219 | the two mappings are inverse, and no later run changes an entry |
| ArchonRuns.UploadConservation | smartContracts/eth/Archon.sol:139-190 | an upload raises the earnings by exactly the payment and pays every listing at least its own ask |
| ArchonRuns.PriceIs | smartContracts/eth/Archon.sol:168-174 | the price of a shard is the ask for each month and each whole megabyte, at least one |
| ArchonRights.RegisterAccepted | smartContracts/eth/Archon.sol:100-117 | a registration succeeds exactly when address and node are new, the parameters not trivial, and the payment reaches the sum of the five scaled fields, read from their bytes; the profile is then the stated one |
| ArchonRights.FirstRegistration | smartContracts/eth/Archon.sol:78-84 | in a new contract a registration costs exactly 10^15 |
| ArchonRights.NameAccepted | smartContracts/eth/Archon.sol:203-219 | a name is given exactly to an address without one, if it is free and nothing is zero, with the two keys in their places |
| ArchonRights.UploadAccepted | smartContracts/eth/Archon.sol:148-190 | an upload succeeds exactly when its sender has a name, the payment divides evenly, and every provider, with all its listings, is in standing, has the storage, does not overflow, and gets at least its ask for each month and megabyte |
| ArchonRights.SlashAccepted | smartContracts/eth/Archon.sol:221-249 | only the owner slashes; slashes add up, and standing is lost exactly when the credit that remains does not cover the stake |
| ArchonRights.ScalarAccepted | smartContracts/eth/Archon.sol:251-270 | only the owner sets a scalar, the one that is named and no other |
| ArchonRights.OwnerAccepted | smartContracts/eth/Ownable.sol:54-73 | only the owner hands the contract over, to an address that is not zero, or gives it up |
| ArchonRights.WithdrawalAccepted | smartContracts/eth/Archon.sol:304-323 | when a withdrawal succeeds, what it pays and what it leaves |
| ArchonRights.LeavingAccepted | smartContracts/eth/Archon.sol:273-302 | when leaving succeeds, what it pays and what it leaves |
| ArchonRights.PlainPayment | smartContracts/eth/Archon.sol:88-91 | a payment without data is kept, any other unknown call fails |
| ArchonRights.OwnerOnly | smartContracts/eth/Archon.sol:221-270 | if an operation slashes anybody, changes a cost or changes the owner, its sender is the owner |
| ArchonRights.RunOwnerOnly | smartContracts/eth/Archon.sol:221-270 | the same of every run, with any call-backs: then some operation that took effect was sent by the owner of that moment |
| ArchonRights.RenouncedForever | smartContracts/eth/Ownable.sol:54-57 | once the contract is given up, nobody is slashed and no cost changes in any later run |
| ArchonRights.OthersLeaveAlone | smartContracts/eth/Archon.sol:88-323 | an operation sent by somebody else cannot register a provider, sign it off, pay it out, name it, or lower its stake, earnings or slash |
| ArchonRights.RunLeavesAlone | smartContracts/eth/Archon.sol:88-323 | the same of every run in which nothing took effect that the provider sent |
| ArchonRights.OperationBalances | smartContracts/eth/Archon.sol:88-323 | the balance changes by exactly what the log gained, and by plain payments |
| ArchonRights.BooksBalance | smartContracts/eth/Archon.sol:66-323 | in every run from deployment the balance is the initial funds, the plain payments, and all stakes and credits less all payouts in the log |
| ArchonSlashing.CoverLost | smartContracts/eth/Archon.sol:236-319 | "good standing means that the earnings cover the slash" is lost exactly by a withdrawal after a slash, or by slashing a provider without stake |
| ArchonSlashing.LogTells | smartContracts/eth/Archon.sol:226-323 | whether a registration was slashed, and whether it was charged, can be read off the order of its events |
| ArchonSlashing.ChargedOnceOnly | smartContracts/eth/Archon.sol:282-319 | in every reachable state, a withdrawal that pays and a settlement in standing deduct the whole slash again; "a slash is charged once" fails exactly when a withdrawal was paid after a slash in this registration |
| ArchonSlashing.ChargedOutOfStanding | smartContracts/eth/Archon.sol:288-298 | a settlement out of standing deducts the slash although the earnings are forfeited too, and what that takes in excess of the slash |
| ArchonSlashing.CanLeave | smartContracts/eth/Archon.sol:273-302 | a provider can leave exactly when it is not in standing with a slash above stake plus earnings, or with a sum that overflows |
| ArchonSlashing.LockedBy | smartContracts/eth/Archon.sol:221-319 | exactly which operations lock a provider in |
| ArchonExamples.SlashedTwice | smartContracts/eth/Archon.sol:273-323 | a run of a new contract in which a provider pays for one slash at two withdrawals and when it leaves, and is in standing with nothing to cover it |
| ArchonExamples.LockedProvider | smartContracts/eth/Archon.sol:273-323 | a run of a new contract after which a provider in standing cannot leave |
| Bytes.ValueOfBigEndian | common/utils.go:340-350 | writing a number big-endian and reading it gives the number back |
| Bytes.ValueOfConcat | common/utils.go:340-350 | the first bytes of a number are the most significant ones |
| Bytes.BigEndianOfValue | common/utils.go:300-338 | reading bytes and writing the number gives the bytes back |
| Bytes.ByteReader.ReadExactly | common/utils.go:282-290 | takes the next n bytes, or fails |
| Bytes.ByteReader.ReadByte | common/utils.go:292-298 | takes one byte, or fails |
| Bytes.ByteReader.ReadUint | common/utils.go:300-314 | takes a big-endian number, or fails |
| Bytes.HashingWriter.Write | common/hash.go:53-59 | the data and the hashed bytes both grow by what is written |
| Codecs.ExtensionLength | common/utils.go:106-127 | padding to a multiple reaches the rounded-up length |
| Codecs.RSIParity | shards/reedSolomon.go:8-38 | the single parity share has the length of the input divided by the data shards, rounded up |
| Codecs.ParityCorrects | shards/reedSolomon.go:8-67 | with a code that puts the blocks first and decodes any of its shares, every choice of as many shares as there are blocks, out of the blocks and the parity, gives the input back, then zeros |
| FileContainer.CreateContainerBytes | shards/filecontainer.go:105-162 | the writer produces the container, the signature over everything before it, and the hash of all |
| FileContainer.ContainerLength | shards/filecontainer.go:45-65 | header and trailer have the lengths that the reader assumes |
| FileContainer.BrowserContainer | shards/filecontainer.go:105-163 | which bytes of a browser container are header, payload, redundancy check and signature, and of what |
| FileContainer.ArchiveContainer | shards/filecontainer.go:105-163 | which bytes of an archive container are header, its parity and checksum, payload, its parity and checksum, and signature |
| FileContainer.ParityLenInverted | shards/filecontainer.go:73-75 | the length of the parity is recovered from payload and parity together |
| FileContainer.PayloadLocated | shards/filecontainer.go:67-78 | from the total length alone the reader finds the end of the payload |
| FileContainer.ContainerLenInjective | shards/filecontainer.go:45-78 | containers of different payload lengths have different lengths |
| FileContainer.ContainerRoundTrip | shards/filecontainer.go:105-199 | whatever padding follows a container, reading it gives the payload |
| FileContainer.OnlyHashedData | shards/filecontainer.go:191-197 | what is returned lies within bytes whose hash is the recorded one |
| FileContainer.ReadableExactly | shards/filecontainer.go:165-199 | the reader accepts exactly a container of known type, with the recorded hash and, in an archive, the right checksum of its header |
| ShardHeaders.NewMxorHeaderFromReader | shards/mxorShardHeader.go:40-65 | accepts exactly the bytes that `ParseMxor` accepts, and stops after 41 |
| ShardHeaders.NewBorsHeaderFromReader | shards/borsShardHeader.go:45-70 | accepts exactly the bytes that `ParseBors` accepts, and stops after 46 |
| ShardHeaders.AorsFromReader | shards/aorsShardHeader.go:137-169 | reads the fields and skips the parity |
| ShardHeaders.NewAorHeaderFromReader | shards/aorsShardHeader.go:171-190 | accepts exactly a right checksum; a wrong one ends in a panic |
| ShardHeaders.NewShardHeader | shards/shardscontainer.go:174-189 | the second byte decides which parser reads the header |
| ShardHeaders.BrowserLayout | shards/borsShardHeader.go:130-137 | where each field stands in a browser header; of the mxor kind at shards/mxorShardHeader.go:68-74 |
| ShardHeaders.ArchiveLayout | shards/aorsShardHeader.go:103-118 | where each field stands in an archive header, with the parity of the fields and the checksum of all before it |
| ShardHeaders.MarkIsOneBit | shards/mxorShardHeader.go:176-178 | the mark of a provider is the highest bit of the flags of an mxor header, and nothing else |
| ShardHeaders.HeaderRoundTrip | shards/shardscontainer.go:174-189 | each of the three headers is read back from its bytes, whatever follows |
| ShardHeaders.ParsedBytes | shards/aorsShardHeader.go:103-118 | an accepted header writes the bytes it was read from; for the archive header exactly when its parity bytes were right |
| ShardHeaders.ShareSizeIsCeiling | shards/reedSolomon.go:69-71 | the share size is the quotient rounded up |
| ShardTransfer.WriteShardContainer | shards/shardscontainer.go:140-159 | writes header, data, for an archive shard parity and checksum, and the signature of all that |
| ShardTransfer.StoreSPShard | shards/mxorShardHeader.go:155-174 | hashes the header as it came, stores it marked, copies what the header announces, and takes the signature after it |
| ShardTransfer.ReceiveShard | storageProvider/uploadHandler.go:148-187 | the provider's file and what it will verify |
| ShardTransfer.BodyLength | shards/shardscontainer.go:71-94 | what is signed has the length that the header implies |
| ShardTransfer.WireLayout | shards/shardscontainer.go:140-159 | which bytes of what is sent are header, data, parity, checksum and signature, and of what |
| ShardTransfer.TotalLenRight | shards/shardscontainer.go:96-112 | the computed total length is right exactly for the two browser containers, and 7 bytes short for the archive container |
| ShardTransfer.HashAgreement | shards/mxorShardHeader.go:155-178 | the provider consumes all but the 65 bytes of the signature and computes the hash that the uploader signed, although it may store another header |
| ShardTransfer.TruncatedNotStored | storageProvider/uploadHandler.go:149-176 | a provider refuses every shard that was cut off, wherever it was |
| ShardTransfer.StoredShardRead | shards/shardscontainer.go:195-202 | the data is read back from a stored file, whatever follows it |
| ShardTransfer.ShardDelivered | shards/shardscontainer.go:140-202 | upload, storage and download of a shard give its data back, and the stored signature is right |
| ShardsContainer.ShardsContainer.SetShard | shards/shardscontainer.go:253-259 | sets one slot, or refuses an index beyond the end |
| ShardsContainer.ShardsContainer.HaveAllNeededShards | shards/shardscontainer.go:306-315 | the early-stopping count tells whether enough shards are there |
| ShardsContainer.ShardsContainer.GetFirstShard | shards/shardscontainer.go:261-269 | the first shard present |
| ShardsContainer.ShardsContainer.Encode | shards/aors.go:24-41 | every slot holds its header and its share; fails exactly for parameters that are not `Encodable` |
| ShardsContainer.ShardsContainer.CollectShares | shards/aors.go:43-49 | the shards present, in the order of their numbers |
| ShardsContainer.ShardsContainer.FirstTwo | shards/bomxor.go:54-65 | the first two of them, or fewer |
| ShardsContainer.ShardsContainer.GetOriginalDataFromContainer | shards/filecontainer.go:165-199 | checks the decoded bytes against the header of the first shard present |
| ShardsContainer.ShardsContainer.Decode | shards/bors.go:43-62 | computes `Decoded` from the slots |
| ShardsContainer.DecodingRefused | shards/mxor.go:110-114 | nothing is decoded from fewer than two mxor shards, from mxor shards of different lengths, or with numbers no Reed-Solomon code has |
| ShardsContainer.CollectedGrows | shards/bomxor.go:56-62 | stopping early does not change the shards already collected |
| ShardPipeline.NewFileContainer | shards/filecontainer.go:81-102 | succeeds exactly with a code that exists and, for mxor, below 4 GB; then slot i holds share i under a header that is read back as that of shard i, with the right kind, numbers, length and hash |
| ShardPipeline.HeaderDescribes | shards/bors.go:33-38 | every header tells its own shard number, the code and the container, also under the mark of a provider |
| ShardPipeline.HeaderTells | shards/borsShardHeader.go:31-43 | the header tells the true share length, except that 256 required shards read as none |
| ShardPipeline.CopyReturned | shards/shardscontainer.go:195-202 | a copy that a provider stored of shard i has a header that is read back as that of shard i, and comes back as that shard |
| ShardPipeline.StoredApart | storageProvider/uploadHandler.go:203 | copies of two shards of one upload have the same name exactly when they are the same shard |
| ShardPipeline.NothingReceived | shards/reedSolomon.go:69-71 | a browser shard with 256 required shards cannot be stored by any provider |
| ShardPipeline.CopyHeader | shards/shardscontainer.go:220-236 | a stored header tells the code, unless the number of shards does not fit its byte |
| ShardPipeline.OriginalFromReturned | shards/filecontainer.go:165-199 | any of the returned headers locates and checks the file |
| ShardPipeline.DecodeReturned | shards/bors.go:43-62 | any set of at least the required shards decodes to the uploaded file, for all three kinds |
| ShardPipeline.NewShardsContainer | shards/shardscontainer.go:220-236 | a downloaded shard determines an empty container of its kind |
| ShardPipeline.StartContainer | download/download.go:148-153 | the first honest shard opens the right container |
| ShardPipeline.PlaceShard | download/download.go:154-155 | an honest shard fills its slot and no other |
| ShardPipeline.Assemble | download/download.go:148-156 | the loop over the map, in any order, fills exactly the slots of the map, and succeeds exactly when the number of shards fits its byte |
| ShardPipeline.OnlyTheFile | shards/filecontainer.go:191-198 | whatever the shards are, under the uploader's header: if the result is not an error, then the decoded bytes begin with a string of the container's length and hash, and if that is the container, the result is the uploaded file; otherwise it is a collision of the hash, named |
| ShardPipeline.DownloadSharded | download/download.go:112-166 | from enough honest shards the client restores the uploaded file, exactly unless a browser container has 256 shards; from any shards, a result that is not an error is read from what the code that one of their headers asks for makes of all of them in their slots, and when the first header is the uploader's, it is the uploaded file unless those bytes collide with the container's hash |
| CodecInstance.SumLaws | shards/reedSolomon.go:8-26 | the single-parity code keeps all laws of the Reed-Solomon code, and has its blocks first |
| CodecInstance.MxorLaws | shards/bomxor.go:29-75 | a code over the field of 256 elements keeps every law of the mxor code |
| CodecInstance.SampleUploads | shards/filecontainer.go:81-102 | with these codes, files of any content can be published in each kind of container |
| CodecInstance.CopiesExist | storageProvider/uploadHandler.go:148-187 | providers can have a copy of every shard that a header can describe |
| CodecInstance.LargeBrowserUpload | shards/borsShardHeader.go:31-43 | a browser upload with 256 shards, all of them stored, that no download restores |
| StorageProviders.RandomRange | common/random.go:23-38 | any distinct numbers in the range |
| StorageProviders.StorageProviders.SortByMinAsk | common/spprofile.go:144-148 | a permutation, sorted by the price rounded up to the granularity |
| StorageProviders.StorageProviders.KeepOnly | common/spprofile.go:92-94 | the first n entries stay |
| StorageProviders.StorageProviders.Remove | common/spprofile.go:188-196 | exactly the entries with another address stay, in order |
| StorageProviders.StorageProviders.PickRandom | common/spprofile.go:151-161 | entries at distinct positions, or the whole list |
| StorageProviders.StorageProviders.PriceOfUpload | common/spprofile.go:165-186 | the wrapped 64-bit price from the dearest provider |
| StorageProviders.PickedDistinct | common/spprofile.go:151-161 | distinct positions of a list without repeated addresses give distinct providers |
| StorageProviders.PriceExact | common/spprofile.go:165-186 | the 64-bit price is the integer price exactly when that fits |
| StorageProviders.PriceWraps | common/spprofile.go:165-177 | however large, the price is right modulo 2^64 |
| StorageProviders.RoundUp64Exact | common/utils.go:106-108 | rounding a price up does not wrap |
| StorageProviders.MegaBytesExact | common/utils.go:114-116 | for a size that is not negative, the megabytes rounded up |
| Marketplace.RefreshCache | upload/storageProviders.go:76-108 | the cache holds valid profiles only, each address once, and exactly what was gathered until nothing new came |
| Marketplace.CacheTells | upload/storageProviders.go:76-108 | the cache holds exactly the last usable profile of each address, out of the answers up to the first one that brings no new address |
| Marketplace.EnoughKept | upload/storageProviders.go:123-130 | cutting the list down leaves at least as many providers as needed |
| Marketplace.GetUploadSps | upload/storageProviders.go:111-136 | returns everybody when there are not too many, and otherwise a choice that the cutting and drawing allow |
| Marketplace.ChosenAreDistinct | upload/storageProviders.go:117-133 | exactly the needed number, all known, nobody twice |
| Marketplace.HighestNearOptimal | upload/storageProviders.go:117-133 | no choice of as many providers has a dearest price lower by a granularity step |
| Marketplace.PriceNearOptimal | upload/storageProviders.go:117-133 | the price exceeds the cheapest possible one by less than granularity times megabytes times providers |
| Marketplace.WhoTakesPart | upload/storageProviders.go:123-130 | everybody at the top price takes part in the draw exactly when somebody is dearer; otherwise the last one is left out |
| Marketplace.TiedProviderDropped | upload/storageProviders.go:123-130 | of three providers with the same ask, when two are needed, the third cannot be drawn |
| Scheduler.EraseInt | common/utils.go:257-265 | the first occurrence is overwritten by the last element, in place |
| Scheduler.ErasedElements | common/utils.go:257-265 | of a list without duplicates exactly that element is gone |
| Scheduler.GetShardUploads | upload/sharded.go:153-169 | the first shards to do, dealt to the providers in turn |
| Scheduler.RoundDrops | upload/sharded.go:116-148 | every round lowers the number of shards to do plus the number of providers |
| Scheduler.RoundSize | upload/sharded.go:116-124 | a round has seven uploads, or as many as there are shards to do |
| Scheduler.UploadRound | upload/sharded.go:123-147 | every upload is answered once, in any order; successes erase shards and failures remove providers |
| Scheduler.UploadNeededShards | upload/sharded.go:104-151 | makes a complete run and reports an error exactly when shards are left |
| UploadRuns.RunState | upload/sharded.go:104-151 | in every run, stored shards and shards to do partition what was to do, the providers left are those that have not failed, and rounds are bounded |
| UploadRuns.EachShardOnce | upload/sharded.go:142-146 | each shard is stored exactly once or is still to do |
| UploadRuns.FailedNotReused | upload/sharded.go:135-141 | a provider that failed is not used in any later round |
| UploadRuns.Outcome | upload/sharded.go:104-151 | success means that every shard was stored once; giving up means that every provider has failed |
| UploadRuns.SharedInRound | upload/sharded.go:153-169 | a round gives two shards to one provider exactly when it has more uploads than providers |
| UploadRuns.TwoShardsAtOneProvider | upload/sharded.go:123 | without any failure, a provider gets two shards exactly when there are more than seven shards or more shards than providers |
| UploadRuns.OneStoresAll | upload/sharded.go:104-151 | for every provider there is a complete run in which it alone stores all the shards |
| UploadRuns.OneShardEach | upload/sharded.go:104-151 | over all complete runs, no provider stores two shards of a file exactly when there is at most one shard |
| UploadRuns.RetryStoresTwo | upload/sharded.go:135-146 | two shards, two providers, one failure: both shards are stored at one provider |
| ClientPrice.HighestIsMaxMinAsk | common/spprofile.go:165-174 | the client and the contract take the maximum of the same asks |
| ClientPrice.PriceDivides | account/neoaccount.go:144-145 | the price divides evenly among the providers |
| ClientPrice.MegaBytesCharged | common/spprofile.go:175-177 | the client never counts fewer megabytes than the contract |
| ClientPrice.EthereumAcceptsPrice | account/ethaccount.go:213-235 | the client's price passes all payment checks of the contract, after which only standing and storage of the providers decide |
| ClientPrice.MonthsCovered | smartContracts/eth/Archon.sol:168-176 | for m months the price of the client reaches that of the contract exactly when m is 1, nobody asks anything, or m is 2 and the shard has more than one and less than two megabytes |
| ClientPrice.NeoPayments | account/neoaccount.go:144-156 | every provider is sent the same part of the price and the same number of megabytes, in decimal |
| ClientPrice.NeoAcceptsPrice | smartContracts/neo/CloudStorage.cs:207-212 | with the numbers as written, sent and scanned, the part of the price passes the contract's check |
| Decimals.ParseIntOfDecimal | blockchainAPI/neo/neoSpProfile.go:36-39 | the decimal form of any integer is parsed back exactly when it has 64 bits, and rejected otherwise |
| Decimals.DecimalInjective | common/utils.go:222-224 | different numbers have different decimal forms |
| Decimals.SplitJoined | common/utils.go:226-247 | fields without a separator are split apart again |
| Decimals.SplitParts | blockchainAPI/neo/neoSpProfile.go:30 | joining what was split gives the text back, and no field holds a separator |
| NeoProfiles.ProfileRoundTrip | blockchainAPI/neo/neoSpProfile.go:19-44 | the client reads back its profile exactly when country and node id hold no separator |
| NeoProfiles.ProfileAccepted | blockchainAPI/neo/neoSpProfile.go:29-43 | the client accepts exactly the strings with three separators whose first two fields are numbers, and reads those fields |
| NeoProfiles.ExtractString | smartContracts/neo/CloudStorage.cs:380-413 | the scanning loop returns the field between the separators, or nothing |
| NeoProfiles.ConvertToInt | smartContracts/neo/CloudStorage.cs:370-378 | the loop returns what the digits denote |
| NeoProfiles.ContractFindsFields | smartContracts/neo/CloudStorage.cs:380-413 | the contract's scanner finds the fields that the client wrote |
| NeoProfiles.ContractSeesMinAsk | smartContracts/neo/CloudStorage.cs:298-305 | the contract sees the client's price exactly when it is not negative, whatever the other fields hold |
| NeoProfiles.ProposeUpload | smartContracts/neo/CloudStorage.cs:145-228 | which of the eleven codes comes of which checks, success and the price code exactly |
| NeoProfiles.AcceptedInDecimal | smartContracts/neo/CloudStorage.cs:166-212 | numbers sent in decimal are accepted exactly when the ask does not exceed payment times megabytes |
| NeoProfiles.WhenCheckProtects | smartContracts/neo/CloudStorage.cs:207-212 | for any profile, the contract's check guarantees the ask for every megabyte exactly when nothing is asked or one megabyte is stored |
| NeoProfiles.UnderpaidAccepted | smartContracts/neo/CloudStorage.cs:207-212 | an ask of 200 for each of two megabytes, and a payment of 100 that is accepted |
| PendingUploads.Verify | storageProvider/pendingUpload.go:113-147 | unknown exactly before the transaction is accepted, OK exactly when it is accepted, its record names this provider, and the signature on the hash is that of the public key |
| PendingUploads.VerifyLoop.OpenFile | storageProvider/uploadHandler.go:199-212 | opening a file empties it, whoever has opened it before; whole files are put at their path at line 138 |
| PendingUploads.VerifyLoop.RegisterPendingUpload | storageProvider/pendingUpload.go:39-52 | the upload of a handler that has finished goes to the end of the channel |
| PendingUploads.VerifyLoop.CleanUp | storageProvider/uploadHandler.go:164-176 | a handler that fails deletes whatever file is at its path, and its upload never gets into the channel |
| PendingUploads.VerifyLoop.HandleAll | storageProvider/uploadHandler.go:149-197 | any number of handlers, interleaved in any way |
| PendingUploads.VerifyLoop.Receive | storageProvider/pendingUpload.go:62-66 | takes the first upload out of the channel |
| PendingUploads.VerifyLoop.Arrive | storageProvider/pendingUpload.go:67-74 | an upload to a path that is still pending takes its place, at the end of the list |
| PendingUploads.VerifyLoop.OnTick | storageProvider/pendingUpload.go:77-108 | every entry is kept, announced or removed, as its verification and its age say, while handlers may do anything between two looks |
| PendingUploads.VerifyLoop.Judge | storageProvider/pendingUpload.go:82-106 | one entry meets its fate, and a removal deletes whatever file is at its path |
| PendingUploads.VerifyPendingUploads | storageProvider/pendingUpload.go:55-111 | the loop computes the state after the events up to the closing of the channel |
| PendingRuns.RunsKeepInv | storageProvider/pendingUpload.go:55-111 | after any events: paths in the list are unique and the list is in order of receipt, no pending entry is older than another one received for its path, every removal and every announcement was deserved, the opened uploads are those in the seven places an upload can be in, and each file, now and at every announcement, removal and failure, is that of the upload that opened its path last, or gone if it was deleted since |
| PendingRuns.FateTells | storageProvider/pendingUpload.go:82-106 | the three fates in terms of what the chain answers and of ten minutes |
| PendingRuns.RemovedForCause | storageProvider/pendingUpload.go:92-104 | in every run, what was removed was not accepted after more than ten minutes, or was accepted without record, for others, or with a wrong signature |
| PendingRuns.AnnouncedForCause | storageProvider/pendingUpload.go:83-91 | in every run, what was announced was accepted, for this provider, and rightly signed |
| PendingRuns.FirstInFirstOut | storageProvider/pendingUpload.go:52-66 | the channel keeps its order: a finished upload goes behind all others, a receipt takes the oldest, nothing else takes any |
| PendingRuns.ClosedForGood | storageProvider/pendingUpload.go:60-65 | after the channel is closed nothing happens any more |
| PendingRuns.OnePlace | storageProvider/pendingUpload.go:55-111 | every upload whose file was opened is in exactly one place, once: being written, given up, in the channel, pending, superseded, announced or removed |
| PendingRuns.ReceiptKeeps | storageProvider/pendingUpload.go:62-74 | a receipt keeps all that |
| PendingRuns.HandlingKeeps | storageProvider/uploadHandler.go:149-197 | a handler that opens a file, finishes or fails keeps all that |
| PendingRuns.TickKeeps | storageProvider/pendingUpload.go:80-108 | a tick keeps all that |
| PendingRuns.LookedKeepsOrder | storageProvider/pendingUpload.go:80-108 | what stays after a tick is a subsequence of what was there |
| PendingRuns.LookedConserves | storageProvider/pendingUpload.go:80-108 | a tick loses no entry and doubles none |
| PendingRuns.LookedFiles | storageProvider/pendingUpload.go:80-108 | through a tick, with handlers at work between the looks, each file stays that of the upload that opened it last, or gone, and every deletion has its removal or failure |
| PendingRuns.WhoStays | storageProvider/pendingUpload.go:82-106 | an entry stays exactly when its transaction is not accepted and it is at most ten minutes old, both at its own look, and otherwise is announced or removed |
| PendingRuns.JudgesLastReceived | storageProvider/pendingUpload.go:67-73 | of the uploads received for a path, a tick judges the last one only |
| PendingRuns.KeepsItsFile | storageProvider/pendingUpload.go:82-104 | in any run, an upload that is announced or removed has its own file at that moment exactly when nobody has opened the path since and neither the loop nor a failing handler has deleted it since |
| PendingRuns.DeletesOther | storageProvider/pendingUpload.go:92-104 | a removal, or the clean-up of a failing handler, deletes the file of another upload exactly when one has opened the path since and its file is not deleted yet; that upload is a later one |
| PendingRuns.FileStillThere | storageProvider/uploadHandler.go:149-197 | at any time, also long after the announcement, an upload has its file exactly under that condition |
| PendingRuns.DeletionsAreCaused | storageProvider/pendingUpload.go:95 | the deletions are exactly those of the loop's removals and of the handlers that failed |
| PendingRuns.NewerFileRemoved | storageProvider/pendingUpload.go:77-108 | a run in which a tick deletes the file that a handler has just opened for a newer upload, and the newer one is announced without its file |
| PendingRuns.FileLostToFailure | storageProvider/uploadHandler.go:164-176 | a run in which a handler empties the file of a pending upload, fails and deletes it; the upload is announced without a file, though the loop has removed nothing |
| ArchonUrls.ShardPathInjective | common/archonurl.go:162-175 | two legal URLs have a name in common exactly when it means the same file or shard in both |
| ArchonUrls.TrimmedTells | common/archonurl.go:169 | trimming takes away the slashes at both ends and nothing else |
| ArchonUrls.NamesLookLike | common/archonurl.go:162-175 | the names of shards and files, of named and of hash URLs, as they look |
| ArchonUrls.IndexDistinguishes | common/archonurl.go:162-175 | the shards of a file have different names, for any URL |
| ArchonUrls.ShardPaths | common/archonurl.go:177-186 | lists the names of all shards without a repetition |

## Left out

- HTTP handlers, multipart streaming, the DHT, RPC, wallets, configuration, logs and prompts: input and output. A reader is a byte string with a cursor, and reads are full.
- SHA3, CRC32, ECDSA, base58, `infectious`, the mxor C code and `sort.Slice` are functions with stated laws. `infectious.NewFEC` is taken to accept exactly 1 <= required <= total <= 256, its first shares to be the blocks of the data (as shards/reedSolomon.go:48-54 relies on), and an mxor shard to have half the length of the data rounded up to a multiple of six.
- Names of cost scalars are compared as strings, not by their keccak hashes; the contract's balance is unbounded; no transaction has the zero address as its sender; gas is not modelled.
- Archon.constructor: the scalars and the owner are set, the constants that the source keeps in storage are constants here.
- Ether that reaches the contract without a call, which could only raise its balance, is not modelled.
- The comment at smartContracts/eth/Archon.sol:124-125, that the owner cannot register as a provider, is not what the code does; the model follows the code.
- The comment at shards/filecontainer.go:139-141 says that the redundancy check covers the container size modulo 2^32; the code masks it to 16 bits, and the model follows the code.
- The repository's README.md, line 86, expects a provider to get two shards of a file only when there are not enough providers. Without failures that also happens with more than seven shards (`TwoShardsAtOneProvider`), and with failures in some run of every file of two shards or more, however many providers there are (`OneShardEach`).
- ShardPipeline.DownloadSharded: fetching the shards over the network is left out. For shards that are not copies of one upload the result is bounded only when the first header is the uploader's; whether decoding fails then depends on the codes.
- ShardHeaders.NewAorHeaderFromReader: the repair of a damaged archive header indexes the only parity share as number 25 and panics, so that the repair itself is not modelled.
- ShardHeaders.ShareSizeIsCeiling: sizes near 2^63, where the 64-bit sum of `GetReedSolomonShareSize` wraps, are not modelled.
- ShardTransfer.StoredShardRead: a file shorter than its header announces is a panic in the model; in Go the slice may also reach into the spare capacity of the download buffer and yield bytes that the hash check then refuses.
- Indices of shards are natural numbers; a negative one would panic in `SetShard`.
- ShardPipeline.NewFileContainer: the container is shorter than 2^63 bytes, as any Go slice is.
- Marketplace.GetUploadSps: the profiles are valid, which `RefreshCache` guarantees of the cache, and the granularity is positive; the cache file and its lock are left out.
- StorageProviders.RandomRange: the random choice is an oracle; the source's loop ends only with probability 1.
- StorageProviders.SpProfile keeps host, address and ask; capacities and ports play no part in the modelled code.
- Scheduler.UploadNeededShards: the source reads the length of shard 0 first and so needs at least one shard; progress output and the retry over http and https within one upload are part of the open outcome. On Ethereum the caller writes into a map that was never made (upload/sharded.go:69-78); that panic is not modelled.
- ClientPrice.EthereumAcceptsPrice: the exact price is below 2^63, the upload is for one month, as account/ethaccount.go:220 sets it (`MonthsCovered` does the other durations), and the chain has the asks that the client's profiles tell; the encoding of the parameters into 32 bytes is left out.
- NeoProfiles.ProposeUpload: witnesses, balances, storage look-ups and the token transfer are inputs; numbers of the Neo machine are unbounded; the registration of Neo providers, where a caller may give any node id on leaving, is left out.
- PendingUploads.VerifyPendingUploads: time is a clock value given with every look, and the chain may answer differently each time; `AnnounceToDht` and `RecordActivity` are only recorded. The state tells whose a file is, by who opened it last, and not what it contains, so that two handlers that write into one file at once are not told apart by its contents; the channel's limit of 400 entries is left out.
- The error "shard already exists" at storageProvider/uploadHandler.go:205 is lost when the directory is made, so that a path is overwritten even when overwriting was not asked for; the model lets every opening overwrite.
- ArchonUrls.ShardPathInjective: parsing of URLs is left out; `Legal` holds what the parser guarantees, and `IndexFromShardPath` is not modelled.
- UploadRuns.Outcome: which of several possible runs happens, and how long an upload takes, is left open.
