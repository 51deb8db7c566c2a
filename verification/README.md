# Verified model of the UOS node plugins

This project models the calculation plugin `uos_rates` and the trace store of `uos_blocks_exporter` in Dafny
and proves what the code keeps over whole runs. `dafny verify dfyconfig.toml` checks all of it.

## What is modelled

- **Consensus of the calculators** (`Consensus`, `RatesNode`, `Protocol`, `Voted`, `Progress`, `Agreement`). Nodes calculate once per
  calculation block, report the result hash for their calculators, wait for three quarters of the calculators on
  one hash, and the node that hosts the lowest-key reporter of that hash issues rates and emission. `Node` is the
  mutable plugin, proved against the function `Catch`; `Protocol` runs many nodes over one append-only report log
  that each node reads at its own time.
- **Transaction queue** (`TrxQueue`). Entries are sent in batches of one account and action.
- **Merkle tree and result hash** (`PowerOfTwo`, `KeyOrder`, `MerkleSpec`, `MerkleTree`, `ResultHash`,
  `MerkleDump`). `Tree` builds leaves and layers with the source's index arithmetic; `MerkleSpec` says independently
  what layers, root and an acceptable proof are. A `std::map` is the sequence of its entries in key order.
- **History processor and interaction index** (`HistoryDecode`, `HistorySpec`, `HistoryProcessor`, `HistoryEffects`,
  `HistoryInvariants`, `RecentIndex`). A cached transaction stands for at most one action. The processor classifies names and emits windowed relations; the index over them is built in one
  pass, and is right only because of an order the processor keeps.
- **Money** (`MapSum`, `MoneySpec`, `Rates`, `Conservation`, `EmissionBound`, `Emission`, `Charges`). Stake rates,
  importance, referrals and emission over real numbers; a printed value is any nearest rounding to its number of
  decimals, and amounts of four decimals are integers. `Charges` closes the circle: when what
  a period pays is what the next one starts from.
- **Texts and stores** (`Csv`, `Snapshot`, `TrxCache`, `TraceStore`). The snapshot file, the resumable transaction
  cache, and the trace collection against the irreversible chain.

## What the proofs found

- `count_tree` with one or two entries reads past the end of a layer, so `calculate_hash` needs at least two
  accounts (`ResultHash.CalculateHash`). Counting a tree again never changes its last node, whatever was set in
  between (`MerkleTree.Tree.CountTree`), and then every proof read runs past the end (`MerkleTree.Tree.GetProof`).
- The root alone does not fix the depth of a tree: a shallower tree has the root of a deeper one exactly when its
  leaves are a layer of the deeper one (`MerkleSpec.RootsMeetExactly`). Equal result hashes mean equal results with
  equally many leaves, or when no text hashes like a pair of digests (`ResultHash.EqualHashExactly`).
- A batch goes out under the authority of its first entry. A node that hosts two calculators queues two reports of
  one account and action, and the second goes out in the name of the first (`TrxQueue.SecondReportGoesOutAsFirst`).
  Every action goes out as its own if and only if neighbours share sender and key (`TrxQueue.OwnAuthorityExactly`).
- The activity list is the recent part of the other two except for calculation blocks in the gap from
  2^31 + activity_window - 1 to 2^31 + transaction_window - 2, where only one window start wraps around
  (`HistoryInvariants.WindowRefinementExactly`).
- One name can become both account and content, exactly through an action that names it as both
  (`HistoryInvariants.DisjointExactly`).
- A self-reference loses its bonus, because the source is written after the target. Totals are conserved exactly
  when no funded account refers to itself in time (`Conservation.ReferralConservationExactly`); the bound on what is
  paid holds around what is due less that loss (`EmissionBound.EmissionWithinBound`).
- A repeated name in the snapshot counts in the total stake but not in the accounts
  (`Snapshot.TotalIsSumExactly`). Without any stake the outcome is no number (`Emission.CalculateRates`).
- A block that could not be read is read again by the next call unless the same call cached something behind it; then
  its transactions are lost for ever. The cache is a full scan exactly when that never happens and nothing is left
  behind its last block (`TrxCache.FailedCallsExactly`).
- A trace put after its height became irreversible stays unmarked for ever, so the store is sound exactly when no
  put comes late (`TraceStore.SoundExactly`).
- A content item takes the place of an account of its name in the result, and is not charged. So the table of
  charged sums holds what was issued exactly when every account that earned something is a real one whose name is not
  content (`Charges.TableIsIssuedExactly`); without a name confused in the history the last condition falls away
  (`Emission.UnconfusedChargeable`), with one the confused name can earn (`HistoryInvariants.ConfusedNameIsReferred`).
- The dump and the CSV file read back as written exactly when all texts are free of their separators
  (`MerkleDump.RoundTripExactly`, `Csv.RoundTripExactly`).

## Assumptions

- Hashing: collision-free where a lemma says so (`InjectivePair`, `InjectiveText`, `Separated`); digests are
  numbers of any size.
- The report table is a log with increasing keys, read in the order (block, key); a read with limit zero gives
  nothing; the set of registered calculators does not change during a run.
- Irreversible blocks do not change, and irreversible heights do not go down.
- The calculators' contract, which is not part of this model, adds each charged sum to the receiver's
  (`Charges.AddSums`), and has done so before the next period reads the sums back; a period is one whose emission
  was issued.

## Model

| member | source | states |
|---|---|---|
| `Consensus.ReadIsPrefix` | uos_rates/uos_rates.cpp:1099-1122 | the limited read of the report table by block, cut at the first row of another block, is the first n reports for the block in the order they came in |
| `Consensus.ReadGrows` | uos_rates/uos_rates.cpp:1099-1122 | a later read of the log shows the same rows and maybe more behind them, never more than n |
| `Consensus.QuorumAgreement` | uos_rates/uos_rates.cpp:1096-1137 | two hashes that reach three quarters of the calculators, in views of which one extends the other, are the same; in one view only one hash can, so the order of the vote map does not matter |
| `Consensus.VotesAreRows` | uos_rates/uos_rates.cpp:1124-1130 | the votes for a hash are the number of rows that report it |
| `Consensus.QuorumIsThreeQuarters` | uos_rates/uos_rates.cpp:1096-1097 | a hash has a quorum if and only if it has a vote and four times its votes are at least three times the calculators |
| `Consensus.ElectIsLeadingRow` | uos_rates/uos_rates.cpp:1130-1160 | the election names an account if and only if some row leads: a non-empty hash with three quarters of the calculators, a key below 2^32 - 1 that is the lowest of the hash, and an account; then it is that account |
| `Consensus.LowestStable` | uos_rates/uos_rates.cpp:1146-1157 | later reports of a hash, with higher keys, do not change its lowest-key report |
| `Consensus.ElectIs` | uos_rates/uos_rates.cpp:1130-1160 | a hash with a quorum in a view decides the election, whichever quorum hash the election looks at |
| `Consensus.ElectedHasQuorum` | uos_rates/uos_rates.cpp:1130-1160 | an elected leader comes from a report in the view, for a non-empty hash that has a quorum |
| `Consensus.LeaderKept` | uos_rates/uos_rates.cpp:1096-1160 | every view that extends one with a quorum elects the same leader |
| `Consensus.LeaderStable` | uos_rates/uos_rates.cpp:1078-1161 | whoever reads the log later than a node that found a leader finds the same leader |
| `RatesNode.ReportsForBlock` | uos_rates/uos_rates.cpp:1111-1122 | the reports collected are the rows up to the first of another block |
| `RatesNode.CountVotes` | uos_rates/uos_rates.cpp:1124-1130 | the vote map holds exactly the hashes reported, each with the number of its reports |
| `RatesNode.LeaderByLowestKey` | uos_rates/uos_rates.cpp:1146-1160 | the scan returns the account of the lowest-key report of the hash, passing over keys of the start value and above |
| `RatesNode.CountsNewOwners` | uos_rates/uos_rates.cpp:1081-1094 | each further row of the register counts as one calculator unless its owner is known or a hundred rows were read |
| `RatesNode.GetConsensusLeader` | uos_rates/uos_rates.cpp:1078-1161 | for any order in which the vote map is visited: a leader is returned if and only if some row leads among the first n reports for the block, with three quarters of the n calculators on its hash and its lowest key, and then it is the account of that row |
| `RatesNode.CalcBlockIs` | uos_rates/uos_rates.cpp:171-173 | the calculation block is the one multiple of the period that is not above the irreversible height and less than a period below it |
| `RatesNode.Node.ReportHash` | uos_rates/uos_rates.cpp:1041-1064 | one report per hosted calculator, of the stored result, is appended to the queue in the order of the calculators |
| `RatesNode.Node.IrreversibleBlockCatcher` | uos_rates/uos_rates.cpp:158-227 | one call either calculates and reports, or issues if a hosted calculator leads, or changes nothing; the whole new state is given; an old head block changes nothing |
| `Protocol.CatchKeepsCounters` | uos_rates/uos_rates.cpp:171-223 | a call keeps: rates are set no later than calculated, nothing is calculated above the current calculation block, and the result is that of the last calculated block |
| `Protocol.CatchKeepsIssues` | uos_rates/uos_rates.cpp:171-223 | a call keeps: issued blocks ascend and each issue names a hosted leader that was elected on some prefix of the log |
| `Protocol.NextKeepsInv` | uos_rates/uos_rates.cpp:158-227 | every step of any node, and every append to the log, keeps the invariant of all nodes |
| `Protocol.RunKeepsInv` | uos_rates/uos_rates.cpp:158-227 | the invariant holds after every run |
| `Protocol.SingleIssuer` | uos_rates/uos_rates.cpp:198-223 | in every run of nodes with disjoint calculators, whatever is reported and whenever the nodes read, a calculation block is issued by at most one node and by that one at most once |
| `Protocol.CountersInEveryRun` | uos_rates/uos_rates.cpp:185-223 | in every run each node has set rates no later than it calculated and holds the result of its last calculated block |
| `Voted.OwnHashHasQuorum` | uos_rates/uos_rates.cpp:200-216 | a node whose own calculator leads holds the result whose hash has the quorum |
| `Voted.RunKeepsHonest` | uos_rates/uos_rates.cpp:185-223 | if reports of hosted calculators come from their hosts, every run keeps: each issue's hash was voted and a node's reports for its last block carry its own result |
| `Voted.IssuedIsVoted` | uos_rates/uos_rates.cpp:198-223 | in every such run the hash of every issue has a quorum among the reports for its block, and no other hash ever has one |
| `Progress.LastIssuedInEveryRun` | uos_rates/uos_rates.cpp:198-223 | in every run the block for which a node set rates last is one it issued |
| `Progress.CallReports` | uos_rates/uos_rates.cpp:185-196 | in every run a call at a block not calculated yet stores the result and adds exactly one report of it per hosted calculator, in their order; any other call adds no report |
| `Progress.ReportedInEveryRun` | uos_rates/uos_rates.cpp:187-196 | in every run each node has reported its last result for every calculator it hosts |
| `Progress.LeaderIssues` | uos_rates/uos_rates.cpp:198-223 | a node that calculated the current block, has not set rates for it and hosts the lowest-key reporter of a quorum hash issues on its next call, whenever after the quorum it reads the log |
| `Progress.StaysCalculated` | uos_rates/uos_rates.cpp:171-196 | between two calls of a node at a block, whatever else happens, the block stays its last calculated one |
| `Progress.HostIssues` | uos_rates/uos_rates.cpp:158-227 | in every run: when a node called at a block and calls at it again, with any other events in between, having read the log up to a quorum whose leader it hosts, the block is issued from that call on |
| `Agreement.RunCarriesOwn` | uos_rates/uos_rates.cpp:185-220 | if every calculation yields the hash of what the node computes, every report and issue of a node carries that hash |
| `Agreement.SameHashSameResult` | uos_rates/uos_rates.cpp:1041-1064 | two outcomes have the same printed hash if and only if they hold the same emission and importance for every account |
| `Agreement.VotersAgree` | uos_rates/uos_rates.cpp:198-223 | in every run with honest reports: a hosted calculator that reported for an issued block voted for the issued hash if and only if its node computed the same emission and importance for every account as the issuer |
| `TrxQueue.Queue.AddTransaction` | uos_rates/uos_rates.cpp:1286-1295 | the entry goes to the end of the queue |
| `TrxQueue.Queue.RunTransaction` | uos_rates/uos_rates.cpp:1297-1318 | a batch is sent whole, every action under the account, authority and key of its first entry, and in order |
| `TrxQueue.Queue.RunTrxQueue` | uos_rates/uos_rates.cpp:1249-1284 | exactly min(num, length) entries leave the queue and the batches of that prefix are sent; nothing happens when the head block is old |
| `TrxQueue.BatchesAreMaximal` | uos_rates/uos_rates.cpp:1261-1282 | the batches joined are the entries in order; each is non-empty, of one account and action, and cannot be extended |
| `TrxQueue.MaximalIsUnique` | uos_rates/uos_rates.cpp:1261-1282 | there is only one way to cut a sequence into such batches |
| `TrxQueue.OwnAuthorityExactly` | uos_rates/uos_rates.cpp:1297-1318 | every action goes out under its own account and key if and only if neighbouring entries of one account and action share them |
| `TrxQueue.OwnAuthorityInEveryRun` | uos_rates/uos_rates.cpp:1249-1318 | over every interleaving of adds and runs all actions went out as their own if and only if in each run like neighbours among the entries taken share sender and key |
| `TrxQueue.SecondReportGoesOutAsFirst` | uos_rates/uos_rates.cpp:1052-1062 | two reports queued for two calculators of one node form one batch, and the second goes out in the name of the first |
| `TrxQueue.FifoStep` | uos_rates/uos_rates.cpp:1249-1295 | one add or one run keeps the sent entries followed by the queued ones, but for the entry added |
| `TrxQueue.FifoInEveryRun` | uos_rates/uos_rates.cpp:1249-1295 | over every interleaving of adds and runs, what was sent followed by what is queued is what was added |
| `PowerOfTwo.PowerOfTwoCorrect` | uos_rates/include/eosio/uos_rates/merkle_tree.hpp:11-13 | the bit trick accepts a number if and only if it is a power of two |
| `PowerOfTwo.AndIsBitwise` | uos_rates/include/eosio/uos_rates/merkle_tree.hpp:11-13 | a binary digit of the bitwise and is one exactly where both digits are |
| `PowerOfTwo.PaddedIsLeast` | uos_rates/include/eosio/uos_rates/merkle_tree.hpp:95-97 | the padded length is the least power of two that is at least the number of entries |
| `KeyOrder.LessIs` | uos_rates/include/eosio/uos_rates/merkle_tree.hpp:26 | a key is below another one at the first byte that differs, or as a proper prefix |
| `KeyOrder.PutSorted` | uos_rates/include/eosio/uos_rates/merkle_tree.hpp:67-69 | writing a key keeps the entries in key order |
| `KeyOrder.PutContents` | uos_rates/include/eosio/uos_rates/merkle_tree.hpp:67-69 | writing a key into the ordered entries is the map update, wherever the key falls |
| `KeyOrder.SortedUnique` | uos_rates/include/eosio/uos_rates/merkle_tree.hpp:88-93 | a set of keys has only one order, so equal maps are visited in the same order |
| `MerkleTree.Tree.SetAccounts` | uos_rates/include/eosio/uos_rates/merkle_tree.hpp:61-73 | every pair is written in order, an empty list changes nothing and returns 0, any other one makes the tree uncounted |
| `MerkleTree.LastWriteCounts` | uos_rates/include/eosio/uos_rates/merkle_tree.hpp:67-69 | of several values set for a key the last one counts, and other keys keep theirs |
| `MerkleTree.Tree.HashPairs` | uos_rates/include/eosio/uos_rates/merkle_tree.hpp:99-104 | one layer is the hashes of neighbouring pairs, and is read in range if and only if the layer below has even length |
| `MerkleTree.Tree.AppendLeaves` | uos_rates/include/eosio/uos_rates/merkle_tree.hpp:87-93 | the leaves of the entries in key order go behind those of earlier counts, and each entry's position is its rank |
| `MerkleTree.Tree.PadLeaves` | uos_rates/include/eosio/uos_rates/merkle_tree.hpp:95-97 | padding leaves are appended up to the least power of two |
| `MerkleTree.Tree.CountLeaves` | uos_rates/include/eosio/uos_rates/merkle_tree.hpp:87-97 | the two together, on any leaf list |
| `MerkleTree.LeafIs` | uos_rates/include/eosio/uos_rates/merkle_tree.hpp:88-97 | with the texts written out: the leaf of an entry is its key followed by its value with the hash of that text, and a padding leaf is "none" with the hash of the empty text |
| `MerkleTree.Tree.CountLayers` | uos_rates/include/eosio/uos_rates/merkle_tree.hpp:99-119 | on empty node lists the layers over the leaves are built, in range if and only if there are at least four leaves; on filled ones a layer over all leaves is appended and then the layers over the lowest list again |
| `MerkleTree.Tree.CountUpperLayers` | uos_rates/include/eosio/uos_rates/merkle_tree.hpp:107-119 | the open-ended loop ends with all layers over the lowest node list appended, and runs past the end exactly when that list is a single node |
| `MerkleTree.Tree.CountAll` | uos_rates/include/eosio/uos_rates/merkle_tree.hpp:87-119 | a first count builds the tree of the entries, in range from three entries on; a further one keeps the layers of the first in front and its root at the end |
| `MerkleTree.Tree.CountTree` | uos_rates/include/eosio/uos_rates/merkle_tree.hpp:82-122 | for every tree: no entries leave it alone, one or two on a fresh tree make it read past the end, three or more give a tree counted once; on a tree counted before the last node stays the root of the first count |
| `MerkleTree.StackedAgain` | uos_rates/include/eosio/uos_rates/merkle_tree.hpp:105-119 | the node lists of a further count keep the layers of the first count in front and its root at the end |
| `MerkleTree.Tree.PairOf` | uos_rates/include/eosio/uos_rates/merkle_tree.hpp:137-144 | the pair is read in range if and only if both members are there |
| `MerkleTree.Tree.GetProof` | uos_rates/include/eosio/uos_rates/merkle_tree.hpp:125-163 | nothing for an uncounted tree or an unknown key; on a tree counted once, one pair per layer that a verifier accepts for the key's entry against the last node; on a tree counted again every known key makes it read past the end |
| `MerkleTree.Tree.Climb` | uos_rates/include/eosio/uos_rates/merkle_tree.hpp:147-161 | on the layers of one count the loop collects the sibling pairs of the position up to the root, always in range; with more lists behind them it runs past the end at the root |
| `MerkleTree.StoredProof` | uos_rates/include/eosio/uos_rates/merkle_tree.hpp:125-163 | the stored path of every entry is a proof of it of length log2 of the padded leaf count |
| `MerkleSpec.LayerShape` | uos_rates/include/eosio/uos_rates/merkle_tree.hpp:99-119 | layer r has exactly 2^(k-1-r) nodes and the last one is the root alone |
| `MerkleSpec.PathVerifies` | uos_rates/include/eosio/uos_rates/merkle_tree.hpp:125-163 | completeness: the sibling pairs of every position are accepted by a verifier that knows only position, leaf hash and root |
| `MerkleSpec.PathBinding` | uos_rates/include/eosio/uos_rates/merkle_tree.hpp:125-163 | under a collision-free pair hash a chain of the right length that verifies for a position is the stored one and proves the stored leaf |
| `MerkleSpec.RootBinding` | uos_rates/include/eosio/uos_rates/merkle_tree.hpp:99-119 | under a collision-free pair hash equal roots at equal depth mean equal leaf hashes |
| `MerkleSpec.RootsMeetExactly` | uos_rates/include/eosio/uos_rates/merkle_tree.hpp:99-119 | a shallower tree has the root of a deeper one if and only if its leaves are the layer of the deeper one at its depth |
| `MerkleSpec.EqualRootsExactly` | uos_rates/include/eosio/uos_rates/merkle_tree.hpp:99-119 | when two trees of any depths have equal roots: equal leaves at equal depth, else the leaves of one are a layer of the other |
| `MerkleSpec.EqualRootsEqualLeaves` | uos_rates/include/eosio/uos_rates/merkle_tree.hpp:88-119 | with equally many leaves, or if leaf texts never hash like pairs, roots are equal if and only if the leaf hashes are |
| `MerkleTree.RootFixesValues` | uos_rates/include/eosio/uos_rates/merkle_tree.hpp:88-119 | trees with the same keys have equal roots if and only if they have equal values |
| `MerkleTree.ProofFixesValue` | uos_rates/include/eosio/uos_rates/merkle_tree.hpp:125-163 | a proof of the right length proves, for the key of an entry, no value but the entry's |
| `ResultHash.MakeInput` | uos_rates/include/eosio/uos_rates/data_processor.hpp:729-741 | two statements per account, as key and as value, in the order of the accounts |
| `ResultHash.CalculateHash` | uos_rates/include/eosio/uos_rates/data_processor.hpp:727-746 | the tree holds the two statements of each account and nothing else, and the hash is its root; with no or one account a read past the end gives no hash |
| `ResultHash.LeavesOfAccount` | uos_rates/include/eosio/uos_rates/data_processor.hpp:731-741 | each account has the two leaves whose texts are its statements of emission and importance, each written twice |
| `ResultHash.LeafOfSome` | uos_rates/include/eosio/uos_rates/data_processor.hpp:731-741 | every leaf is one of those of some account, or padding |
| `ResultHash.StatementInjective` | uos_rates/include/eosio/uos_rates/data_processor.hpp:733-739 | the last blank of a statement separates name and value |
| `ResultHash.EqualLeavesEqualEntries` | uos_rates/include/eosio/uos_rates/merkle_tree.hpp:88-97 | equal padded leaf hashes mean equal entries, padding included |
| `ResultHash.StatementsDetermineAccounts` | uos_rates/include/eosio/uos_rates/data_processor.hpp:731-741 | the statements determine name, emission and importance of every account |
| `ResultHash.EqualLeavesExactly` | uos_rates/include/eosio/uos_rates/data_processor.hpp:727-743 | two result trees have equal leaf hashes if and only if their accounts, emission and importance are the same |
| `ResultHash.EqualHashExactly` | uos_rates/include/eosio/uos_rates/data_processor.hpp:727-743 | two calculations have equal result hashes if and only if their accounts, emission and importance are the same, with equally many padded leaves or texts that never hash like pairs |
| `MerkleDump.Extract` | uos_rates/include/eosio/uos_rates/merkle_tree.hpp:187-222 | reading a word gives the next token under the changed character table, or leaves the word alone at the end of the text |
| `MerkleDump.Write` | uos_rates/include/eosio/uos_rates/merkle_tree.hpp:201-206 | the dump has one line per entry in key order |
| `MerkleDump.Read` | uos_rates/include/eosio/uos_rates/merkle_tree.hpp:235-246 | reading writes the tokens two by two into the tree, dropping a last single one |
| `MerkleDump.DumpPairs` | uos_rates/include/eosio/uos_rates/merkle_tree.hpp:187-222 | the tokens of a dump of clean entries are its keys and values in order |
| `MerkleDump.DumpIsLines` | uos_rates/include/eosio/uos_rates/merkle_tree.hpp:201-206 | the dump is a line of key, semicolon, value and line feed per entry |
| `MerkleDump.CleanIs` | uos_rates/include/eosio/uos_rates/merkle_tree.hpp:187-199 | a text survives if and only if it is not empty and holds no semicolon and no space character but the blank |
| `MerkleDump.RoundTripExactly` | uos_rates/include/eosio/uos_rates/merkle_tree.hpp:201-246 | a dump reads back as the same map if and only if every key and value is non-empty and free of the separators |
| `MerkleDump.Reload` | uos_rates/include/eosio/uos_rates/merkle_tree.hpp:264-277 | a counted tree dumped, read and counted again has the same leaves and layers, so the same root and proofs |
| `HistoryProcessor.DataProcessor.SetBlockLimits` | uos_rates/include/eosio/uos_rates/data_processor.hpp:163-169 | the block limits are those of the mixed signed and unsigned 32-bit arithmetic |
| `HistoryProcessor.DataProcessor.AddOrganization` | uos_rates/include/eosio/uos_rates/data_processor.hpp:329-342 | one step of the history machine |
| `HistoryProcessor.DataProcessor.AddContent` | uos_rates/include/eosio/uos_rates/data_processor.hpp:344-379 | one step of the history machine, with its three rejections in order |
| `HistoryProcessor.DataProcessor.AddUpvote` | uos_rates/include/eosio/uos_rates/data_processor.hpp:381-413 | one step of the history machine, with its two rejections in order |
| `HistoryProcessor.DataProcessor.AddDownvote` | uos_rates/include/eosio/uos_rates/data_processor.hpp:415-447 | one step of the history machine, with its two rejections in order |
| `HistoryProcessor.DataProcessor.AddTransfer` | uos_rates/include/eosio/uos_rates/data_processor.hpp:449-464 | one step of the history machine |
| `HistoryProcessor.DataProcessor.AddTrust` | uos_rates/include/eosio/uos_rates/data_processor.hpp:466-482 | one step of the history machine |
| `HistoryProcessor.DataProcessor.AddReferral` | uos_rates/include/eosio/uos_rates/data_processor.hpp:484-500 | one step of the history machine |
| `HistoryProcessor.DataProcessor.ProcessAction` | uos_rates/include/eosio/uos_rates/data_processor.hpp:209-327 | each action takes the step of its kind; a refused one is only noted |
| `HistoryProcessor.DataProcessor.ProcessTransaction` | uos_rates/include/eosio/uos_rates/data_processor.hpp:171-207 | a transaction takes the step of the one action it stands for by contract, action name, fields and interaction text; a line break or an exception is noted as refused, and an old action of no known kind changes nothing |
| `HistoryProcessor.DataProcessor.ProcessTransactionHistory` | uos_rates/include/eosio/uos_rates/data_processor.hpp:171-207 | the processor's state after a history of transactions is the run of the state machine over the actions they stand for |
| `HistoryEffects.BreakExactly` | uos_rates/include/eosio/uos_rates/data_processor.hpp:174-182 | a text with a line break, plain or printed, is noted as refused for it and nothing else happens |
| `HistoryEffects.OldContent` | uos_rates/include/eosio/uos_rates/data_processor.hpp:220-246 | makecontent of any type but 4 and makecontorg: content by its author, with the three rejections, the two names, the ownership in each window, and all else unchanged |
| `HistoryEffects.OldOrganization` | uos_rates/include/eosio/uos_rates/data_processor.hpp:213-218 | makecontent of type 4: the organization becomes an account unless it is content |
| `HistoryEffects.OldVote` | uos_rates/include/eosio/uos_rates/data_processor.hpp:227-239 | usertocont of type 2 is an upvote, of type 4 a downvote, of any other nothing; two rejections, the two names, the vote in each window |
| `HistoryEffects.OldUnknown` | uos_rates/include/eosio/uos_rates/data_processor.hpp:184-197 | any other action of the activity contract, and any of another contract, changes nothing |
| `HistoryEffects.TokenTransfer` | uos_rates/include/eosio/uos_rates/data_processor.hpp:318-327 | a transfer goes from sender to receiver with its quantity into each window of its block, and all else stays |
| `HistoryEffects.PostedContent` | uos_rates/include/eosio/uos_rates/data_processor.hpp:274-283 | the two posting interactions create content, as makecontent does |
| `HistoryEffects.Upvoted` | uos_rates/include/eosio/uos_rates/data_processor.hpp:284-288 | the upvote interaction: rejections, names, and the upvote in each window |
| `HistoryEffects.Downvoted` | uos_rates/include/eosio/uos_rates/data_processor.hpp:289-293 | the downvote interaction: rejections, names, and the downvote in each window |
| `HistoryEffects.CreatedOrganization` | uos_rates/include/eosio/uos_rates/data_processor.hpp:294-298 | the organization becomes an account unless it is content |
| `HistoryEffects.Trusted` | uos_rates/include/eosio/uos_rates/data_processor.hpp:299-303 | a trust between known accounts is appended, and only that; otherwise it is rejected |
| `HistoryEffects.Referred` | uos_rates/include/eosio/uos_rates/data_processor.hpp:304-312 | reference and referral between known accounts append a reference from source to target, and only that; otherwise it is rejected |
| `HistoryEffects.UnknownInteraction` | uos_rates/include/eosio/uos_rates/data_processor.hpp:313-315 | an interaction of no known kind is rejected as unused |
| `HistoryEffects.Unreadable` | uos_rates/include/eosio/uos_rates/data_processor.hpp:199-206 | without a contract, or with a block number that is no number, a transaction is rejected as it stands |
| `HistoryDecode.OldIgnoresHistoric` | uos_rates/include/eosio/uos_rates/data_processor.hpp:184-194 | the old handler, called first on a historic action too, does nothing and fails only where the generic one fails |
| `HistoryInvariants.WindowStart` | uos_rates/include/eosio/uos_rates/data_processor.hpp:163-169 | where a window starts for every 32-bit calculation block, wrap-around included |
| `HistoryInvariants.WindowExact` | uos_rates/include/eosio/uos_rates/data_processor.hpp:370-378 | heights in a window never wrap and lie in 0 to window - 2; below 2^31 the window is exactly a range of block distances |
| `HistoryInvariants.StepRefines` | uos_rates/include/eosio/uos_rates/data_processor.hpp:370-378 | outside the gap one action keeps the activity list the recent part of the social and transfer lists |
| `HistoryInvariants.RunRefines` | uos_rates/include/eosio/uos_rates/data_processor.hpp:370-464 | so does every history |
| `HistoryInvariants.WindowRefinementExactly` | uos_rates/include/eosio/uos_rates/data_processor.hpp:163-169 | the refinement holds for all histories if and only if the calculation block is outside the gap between the wrap-arounds of the two window starts |
| `HistoryInvariants.StepKeepsInv` | uos_rates/include/eosio/uos_rates/data_processor.hpp:329-500 | one action keeps: no vote on a content before its ownership, no content owned twice, relations lead from known accounts to known contents, heights in the window |
| `HistoryInvariants.RunKeepsInv` | uos_rates/include/eosio/uos_rates/data_processor.hpp:171-500 | every history keeps that invariant |
| `HistoryInvariants.AccountsGrow` | uos_rates/include/eosio/uos_rates/data_processor.hpp:484-500 | known accounts stay known, and references join known accounts |
| `HistoryInvariants.StepOwnerships` | uos_rates/include/eosio/uos_rates/data_processor.hpp:344-447 | one action changes the ownerships of a content only if it is its first accepted mention |
| `HistoryInvariants.OwnershipExactly` | uos_rates/include/eosio/uos_rates/data_processor.hpp:344-447 | after every history a content has exactly the ownership it is due: one, by its author, when its first accepted mention is its creation in the window, else none |
| `HistoryInvariants.StepDisjoint` | uos_rates/include/eosio/uos_rates/data_processor.hpp:344-447 | one action keeps account and content names apart if and only if it does not use one unknown name as both |
| `HistoryInvariants.DisjointExactly` | uos_rates/include/eosio/uos_rates/data_processor.hpp:171-447 | account and content names stay apart over a history if and only if no action of it used an unknown name as both |
| `HistoryInvariants.ConfusedNameIsReferred` | uos_rates/include/eosio/uos_rates/data_processor.hpp:381-500 | a name that an action uses as both becomes account and content, and any known account may name it as its referrer |
| `RecentIndex.Indexes.BuildIndexes` | uos_rates/uos_rates.cpp:649-688 | one pass builds the ownership map and two indexes, both with the online outcome for every owner and actor, so each is the other's transpose |
| `RecentIndex.OwnersExactly` | uos_rates/uos_rates.cpp:663-666 | when ownerships come first the ownership map names an owner exactly when some relation does |
| `RecentIndex.OwnersLast` | uos_rates/uos_rates.cpp:663-666 | of each content with an ownership the map holds the last one |
| `RecentIndex.OnlineIsOffline` | uos_rates/uos_rates.cpp:668-687 | when ownerships come first the one-pass outcome is the offline one: present exactly when the actor voted on a content of the owner, and then the first vote of lowest height |
| `RecentIndex.IndexOfHistory` | uos_rates/uos_rates.cpp:656-687 | for every history the index over its social relations is the offline one |
| `RecentIndex.EarlyVoteIgnored` | uos_rates/uos_rates.cpp:668-676 | a vote before every ownership of its content is as good as not there, whatever follows |
| `RecentIndex.EarlyVoteIsMissed` | uos_rates/uos_rates.cpp:668-676 | when it is the actor's only vote on contents of the owner, the pass finds nothing where the offline index has an entry |
| `Rates.Processor.CalculateStakeRates` | uos_rates/include/eosio/uos_rates/data_processor.hpp:589-595 | every account gets its printed share of the total stake; with a total of zero and any account the rates are no numbers |
| `Rates.Processor.ApplyReferral` | uos_rates/include/eosio/uos_rates/data_processor.hpp:621-639 | the target is credited, then the source set from its earlier value, and referrer and bonus are recorded |
| `Rates.Processor.CalculateReferrals` | uos_rates/include/eosio/uos_rates/data_processor.hpp:616-644 | the referrals are applied in order, and each source keeps the referrer and bonus of its last one |
| `Rates.LastReferrer` | uos_rates/include/eosio/uos_rates/data_processor.hpp:622 | the recorded referrer of an account is the target of its last reference |
| `Rates.Processor.TakePrevious` | uos_rates/include/eosio/uos_rates/data_processor.hpp:699-706 | accounts of the previous emission are added and it is summed up |
| `Rates.Processor.AskLibrary` | uos_rates/include/eosio/uos_rates/data_processor.hpp:692-710 | the resulting emission is what the library answers to the printed target less the previous emission, and the printed limit |
| `Rates.Processor.CalculateEmission` | uos_rates/include/eosio/uos_rates/data_processor.hpp:687-724 | accounts of the previous emission are added, and resulting, current, cumulative and both total emissions are set; previous and resulting emission together stay within the target when the library leaves the rest, and meet it when it answers the rest; the resulting emission keeps the limit |
| `Rates.Processor.CalculateImportance` | uos_rates/include/eosio/uos_rates/data_processor.hpp:597-613 | every account gets its printed importance; shares above one together are replaced by the defaults |
| `Rates.Processor.EmitToAccounts` | uos_rates/include/eosio/uos_rates/data_processor.hpp:712-723 | every account gets its printed current and cumulative emission, and the sum is that of the current ones |
| `Conservation.BonusRange` | uos_rates/include/eosio/uos_rates/data_processor.hpp:623-629 | a bonus is at most a tenth of the source's importance, and zero exactly for no importance or a reference past its period |
| `Conservation.BonusFadesEvenly` | uos_rates/include/eosio/uos_rates/data_processor.hpp:624-629 | a bonus falls evenly over two years of blocks from a tenth of the importance to nothing |
| `Conservation.ReferSum` | uos_rates/include/eosio/uos_rates/data_processor.hpp:628-638 | one referral leaves the total importance alone, except that a self-reference loses its bonus |
| `Conservation.ReferralTotal` | uos_rates/include/eosio/uos_rates/data_processor.hpp:616-644 | the total importance falls by exactly the bonuses of self-references |
| `Conservation.ReferralsNonNegative` | uos_rates/include/eosio/uos_rates/data_processor.hpp:616-644 | no importance becomes negative |
| `Conservation.FundedExactly` | uos_rates/include/eosio/uos_rates/data_processor.hpp:616-644 | an account has importance after the referrals if and only if it had some before or some reference in time leads to it from an account that had, read off the references alone |
| `Conservation.SelfLoss` | uos_rates/include/eosio/uos_rates/data_processor.hpp:628-638 | self-references lose nothing if and only if none is in time with a funded account |
| `Conservation.ReferralConservationExactly` | uos_rates/include/eosio/uos_rates/data_processor.hpp:616-644 | the total importance is conserved if and only if no reference of a funded account to itself comes in time |
| `Conservation.SourceKeepsNineTenths` | uos_rates/include/eosio/uos_rates/data_processor.hpp:628-638 | the source of k references keeps at least (9/10)^k of its importance |
| `Conservation.CumulativeIsExact` | uos_rates/include/eosio/uos_rates/data_processor.hpp:716-718 | adding two amounts of four decimals and printing the sum is exact |
| `Conservation.EarnsNonNegative` | uos_rates/include/eosio/uos_rates/data_processor.hpp:713-715 | non-negative importance and resulting emission give a non-negative amount |
| `Conservation.ResultingWithinTarget` | uos_rates/include/eosio/uos_rates/data_processor.hpp:692-710 | the emission so far and the resulting emission stay within the target, meet it, and keep the limit, as the library does |
| `Conservation.RealResultingIsSum` | uos_rates/include/eosio/uos_rates/data_processor.hpp:720-723 | the printed total emission is the true sum of the accounts' emission |
| `Conservation.EmissionConservation` | uos_rates/include/eosio/uos_rates/data_processor.hpp:699-724 | the cumulative emission of all accounts is the full previous plus the real resulting emission, to the last unit |
| `EmissionBound.SharesTaken` | uos_rates/include/eosio/uos_rates/data_processor.hpp:598-605 | shares in range are taken as they are, others replaced by four tenths and one tenth |
| `EmissionBound.ImportanceClose` | uos_rates/include/eosio/uos_rates/data_processor.hpp:592-611 | an account's importance is within 10^-10 of social rate times its share, transfer rate times its share and exact stake share times the rest, both roundings together |
| `EmissionBound.ImportanceSumClose` | uos_rates/include/eosio/uos_rates/data_processor.hpp:589-613 | the sum of all importances is within 10^-10 per account of what the sums of the rates and the staked part of the total stake are due |
| `EmissionBound.EmissionWithinBound` | uos_rates/include/eosio/uos_rates/data_processor.hpp:589-724 | for any references, to oneself too, the emission paid differs from the resulting emission times what is due, less what self-references lose, by at most half a unit per account plus the resulting emission times 10^-10 per account |
| `Emission.ReferralsOf` | uos_rates/include/eosio/uos_rates/data_processor.hpp:619-622 | each reference relation becomes the referral of its source by its target, at its height |
| `Emission.ReferralsAmong` | uos_rates/include/eosio/uos_rates/data_processor.hpp:484-500 | the reference relations of a history become referrals among its accounts |
| `Emission.ReadHistory` | uos_rates/uos_rates.cpp:518-520 | the accounts, contents and referrals of the history over the accounts of the snapshot; the referrals join known accounts |
| `Emission.UnconfusedChargeable` | uos_rates/uos_rates.cpp:544-588 | when no action of the history used an unknown name as both account and content, everything earned is charged if and only if every earner is a real account |
| `Emission.WholeStake` | uos_rates/include/eosio/uos_rates/data_processor.hpp:145-161 | with one record per name the accounts hold the whole total stake |
| `Emission.CalculateAllImportance` | uos_rates/uos_rates.cpp:525-530 | the steps up to the referrals leave the referred importance of every account |
| `Emission.PayOut` | uos_rates/uos_rates.cpp:535 | the emission step pays by importance and conserves both totals |
| `Emission.ImportanceNonNegative` | uos_rates/include/eosio/uos_rates/data_processor.hpp:589-644 | with non-negative stakes and rates and some stake no importance is negative, before or after the referrals |
| `Emission.PaidNonNegative` | uos_rates/include/eosio/uos_rates/data_processor.hpp:713-715 | and no amount paid is negative when the resulting emission is not |
| `Emission.CalculatePayouts` | uos_rates/uos_rates.cpp:525-535 | from stakes, rates and referrals to the payouts: conservation, the bound and the signs, or no number at all without stake |
| `Emission.CalculateRates` | uos_rates/uos_rates.cpp:518-588 | the same from the snapshot and the history of transactions on, for every snapshot and every history, with the conversion to the result format |
| `Charges.ConvertResult` | uos_rates/uos_rates.cpp:544-588 | the result holds an item per account and per content, and a content item, with no emission, takes the place of an account of its name |
| `Charges.SetEmission` | uos_rates/uos_rates.cpp:1225-1247 | the charges queued hold for each item of the result what it is due: only real accounts, only a unit or more |
| `Charges.GetPreviousEmission` | uos_rates/uos_rates.cpp:411-443 | the previous emission is the printed sum of every account that has one |
| `Charges.ReadBackIsCarried` | uos_rates/uos_rates.cpp:411-443 | charging the items, adding up and reading back loses no unit |
| `Charges.TableIsCarried` | uos_rates/uos_rates.cpp:1225-1247 | the table after the charges is again one of whole units, what the next period starts from |
| `Charges.CarriedExactly` | uos_rates/uos_rates.cpp:544-588 | the next period starts from exactly this period's cumulative emission if and only if every account that earned something is a real one whose name is not content, and none earned a negative amount |
| `Charges.ChargedExactly` | uos_rates/uos_rates.cpp:1225-1247 | of non-negative amounts at most all is charged, and all if and only if every earner is a real account whose name is not content |
| `Charges.TableIsWhole` | uos_rates/uos_rates.cpp:1225-1247 | after any run of periods the table holds whole units |
| `Charges.ReadBackExactly` | uos_rates/uos_rates.cpp:411-443 | in every run of periods that charge, add up and read back, what is read after a period is its cumulative emission if and only if the same holds of that period |
| `Charges.TableIsIssuedExactly` | uos_rates/include/eosio/uos_rates/data_processor.hpp:699-724 | over any such run without negative amounts the table holds at most the real resulting emissions together, and exactly them, to the last unit, if and only if in every period each earner was a real account whose name is not content |
| `Charges.DisjointChargeable` | uos_rates/uos_rates.cpp:544-588 | when no account of the period is content as well, only the question of real accounts is left |
| `Charges.InputsNonNegative` | uos_rates/include/eosio/uos_rates/data_processor.hpp:713-715 | with non-negative importance and resulting emissions no period has a negative amount |
| `Snapshot.StakeTable.PrepareActorIds` | uos_rates/include/eosio/uos_rates/data_processor.hpp:145-161 | every record adds to the total, and sets the stake of its name |
| `Snapshot.TotalIsSumExactly` | uos_rates/include/eosio/uos_rates/data_processor.hpp:145-161 | for non-negative stakes the total is the sum of the accounts' stakes if and only if no record that a later one of its name follows held stake |
| `Snapshot.TotalIsSum` | uos_rates/include/eosio/uos_rates/data_processor.hpp:145-161 | with unique names the total is the sum, whatever the signs |
| `Snapshot.StakesOfRows` | uos_rates/include/eosio/uos_rates/data_processor.hpp:152-160 | with unique names the stake of each account read back is both weights of its row, an unlimited one counting as zero |
| `Snapshot.TotalOfRecords` | uos_rates/include/eosio/uos_rates/data_processor.hpp:152-158 | each record counts in the total with both weights of its row |
| `Snapshot.StakesNonNegative` | uos_rates/include/eosio/uos_rates/data_processor.hpp:145-161 | non-negative records give non-negative stakes and a non-negative total |
| `Snapshot.ReadCsvMap` | uos_rates/include/eosio/uos_rates/cvs.h:204-228 | one record per row behind the heading; in range if and only if no row is longer than the heading; fewer than two rows give nothing |
| `Snapshot.SnapshotRoundTrip` | uos_rates/uos_rates.cpp:359-409 | a snapshot written and read back has one record per row with the row's cells, and with unique names a total that is the sum of the stakes |
| `Csv.CsvWriter.AddDataInRow` | uos_rates/include/eosio/uos_rates/cvs.h:81-106 | one line is appended, the cells joined by the separator; nothing when writing is off |
| `Csv.SplitLine` | uos_rates/include/eosio/uos_rates/cvs.h:189-197 | the line is cut at every separator |
| `Csv.SplitIsCells` | uos_rates/include/eosio/uos_rates/cvs.h:189-197 | a cut line has at least one cell, none holds a semicolon, and joined they are the line |
| `Csv.JoinedByText` | uos_rates/include/eosio/uos_rates/cvs.h:98-104 | a semicolon stands between cells, and each row ends in a line feed |
| `Csv.ReadCsv` | uos_rates/include/eosio/uos_rates/cvs.h:183-202 | the rows are the cut lines of the text; a last line need not end in a newline |
| `Csv.RoundTripExactly` | uos_rates/include/eosio/uos_rates/cvs.h:81-202 | rows written and read back are the same rows if and only if none is empty and no cell holds a separator |
| `TrxCache.WantedIs` | uos_rates/uos_rates.cpp:320-333 | wanted are eight actions of the activity and the token contract |
| `TrxCache.ActionsAreFiltered` | uos_rates/uos_rates.cpp:318-352 | a wanted action is cached with transaction id and block, another one not, and the actions of a transaction one after the other |
| `TrxCache.BlockIsFiltered` | uos_rates/uos_rates.cpp:314-354 | the transactions of a block are cached one after the other |
| `TrxCache.ScanIsAllBlocks` | uos_rates/uos_rates.cpp:283-303 | a scan is what each of its blocks yields, in order |
| `TrxCache.GetTransactionsFromBlock` | uos_rates/uos_rates.cpp:308-357 | the actions of the two contracts with a known name, in order, each with its transaction id and block |
| `TrxCache.Cache.AppendAll` | uos_rates/uos_rates.cpp:293-301 | each transaction of a block goes to the result and to the end of the file |
| `TrxCache.Cache.ScanBlocks` | uos_rates/uos_rates.cpp:283-303 | the loop adds what the blocks from the start to the limit hold |
| `TrxCache.Cache.GetTransactions` | uos_rates/uos_rates.cpp:244-306 | with a custom cache file the result is what it holds and nothing is scanned; otherwise the file and the result are the old file followed by what the blocks from behind the last cached transaction up to the limit hold |
| `TrxCache.BehindLast` | uos_rates/uos_rates.cpp:278-282 | between the last cached transaction and the last scanned block there is nothing to find |
| `TrxCache.ResumeIsRescan` | uos_rates/uos_rates.cpp:277-305 | a call on a full scan leaves the full scan up to the higher of the old and the new limit |
| `TrxCache.CacheIsRescan` | uos_rates/uos_rates.cpp:244-306 | after any sequence of calls, with limits in any order, the file is the full scan up to the highest limit |
| `TrxCache.FailedBlocksExactly` | uos_rates/uos_rates.cpp:289-290 | with unreadable blocks one call on a full scan still reaches the full scan if and only if none of them, from the start on, holds a matching transaction |
| `TrxCache.CallOnComplete` | uos_rates/uos_rates.cpp:277-303 | a call on a file that is complete up to its own last block leaves it so unless it passes over an unreadable matching block in front of one it caches; then the file is behind |
| `TrxCache.CallOnBehind` | uos_rates/uos_rates.cpp:277-303 | what a file is behind, no call makes good |
| `TrxCache.CompleteExactly` | uos_rates/uos_rates.cpp:268-303 | after any sequence of calls the file is complete up to its own last block if and only if no call passed anything over |
| `TrxCache.FailedCallsExactly` | uos_rates/uos_rates.cpp:268-303 | after any sequence of calls, with limits in any order and any blocks unreadable at any time, the file is the full scan up to the highest limit if and only if no call passed anything over and nothing matching is left behind its last block |
| `TraceStore.Exporter.PutByUniqBlocknumTrxid` | uos_blocks_exporter/mongo_worker.cpp:56-106 | all documents of the block number and transaction are replaced by the new one |
| `TraceStore.Exporter.PutTrace` | uos_blocks_exporter/uos_blocks_exporter.cpp:150-159 | a trace is put unmarked |
| `TraceStore.Exporter.SetIrreversibleBlock` | uos_blocks_exporter/mongo_worker.cpp:215-248 | documents of other blocks of the height go, those of the block are marked, all others stay |
| `TraceStore.Exporter.WalkBack` | uos_blocks_exporter/uos_blocks_exporter.cpp:62-71 | the walk along the parents ends and settles every height above the last settled one, as if all were settled at once |
| `TraceStore.Exporter.IrreversibleBlockCatcher` | uos_blocks_exporter/uos_blocks_exporter.cpp:57-76 | the heights up to the last irreversible one are settled, and the last state is set and stored |
| `TraceStore.SettleJoin` | uos_blocks_exporter/uos_blocks_exporter.cpp:62-71 | settling height by height, downwards, is settling the whole range |
| `TraceStore.PutKeepsExact` | uos_blocks_exporter/mongo_worker.cpp:56-106 | a put above the last irreversible height keeps the store exactly what the last puts and the chain demand |
| `TraceStore.CatchKeepsExact` | uos_blocks_exporter/uos_blocks_exporter.cpp:57-76 | so does a catcher call on a grown chain |
| `TraceStore.ExactInEveryRun` | uos_blocks_exporter/uos_blocks_exporter.cpp:57-76 | so does every run, with arbitrary forks |
| `TraceStore.IrreversibleStoreSound` | uos_blocks_exporter/uos_blocks_exporter.cpp:57-76 | in every run keys are unique, documents up to the last irreversible height are marked and of the chain's block, and none above is marked |
| `TraceStore.LastPutPresent` | uos_blocks_exporter/uos_blocks_exporter.cpp:57-76 | in every run the trace put last for a block number and transaction is present, marked up to the last irreversible height, if and only if its height is not irreversible or it is of the chain's block |
| `TraceStore.MissedStays` | uos_blocks_exporter/uos_blocks_exporter.cpp:57-76 | an unmarked document at a settled height stays, or another one of its key does, whatever comes |
| `TraceStore.SoundExactly` | uos_blocks_exporter/uos_blocks_exporter.cpp:57-76 | after any run, with puts at any height, the store is marked and of the chain's blocks exactly up to the last irreversible height if and only if no put came after its height was settled |

## Left out

- Social and transfer rates, target emission, emission limit and the formula for the resulting emission come from the rank and emission library, which is not part of this model, and are parameters.
- Blocks, ABI decoding, signing and HTTP. The fields of a transaction come as printed texts; number, JSON, amount and time parsing are parameters whose missing result is the exception of the source.
- IEEE doubles: real numbers are used, with any nearest rounding where the code prints a value.
- Rates.Processor.CalculateStakeRates: only tells that the rates are no numbers when the total stake is zero, not which texts are printed for them.
- MerkleTree.Tree.CountTree: what leaves and layers look like after a read past the end is left open.
- MerkleTree.Tree.SetAccounts: has text values; the overload for doubles prints them first.
- Snapshot.ReadCsvMap: does not model what a read past the column names returns, only that it happens. `stol` is the parameter `parse`; its exceptions are not modelled.
- HistoryProcessor.DataProcessor.ProcessTransaction: rejects are one list with a reason, in order, not a map from reason to texts, and hold the action, not its printed form.
- RatesNode.Node.IrreversibleBlockCatcher: does not model the custom block options, saving the result and restarts. Statistics, rates and emission are one queued entry `Issue`; `Charges.SetEmission` models the emission part.
- RecentIndex.Indexes.BuildIndexes: leaves out the plain lists by owner, content and actor, which are copies of the relations.
- TrxQueue.Queue.RunTrxQueue: the failure branch after an unsent batch cannot be reached, because sending always empties the batch; errors of the chain on a sent transaction are only logged there and not modelled here.
- TrxCache.Cache.GetTransactions: the 32-bit loop counter does not wrap in the model, so the limit 2^32 - 1 is not covered.
- Of the exporter: database failures, connections and indexes, white and black lists, the collection of contracts, and `get_last_state` at start-up; the block id of a trace is whatever the trace carries.
- How the contracts accept reports and which authority they ask for: reports enter the log freely in `Protocol`, and only through their hosts in `Voted`.
- Scaled values, network activity, details for storage, tables served over HTTP, compression and file listing, and the `uos_webface` plugin.
- The dump of trees keyed by `account_name`, which prints keys as numbers, and the text form of a proof.
