# Verified model of Ostia's topology identity and of the tools around it

This project models the parts of the repository whose correctness is hardest to see from one function, and proves
what they are for.

- **The `topo1` canonical form.** Labels are stripped from the machine model, colours are refined to the coarsest
  stable partition, one vertex of the first open cell is individualised, and of all leaves the least certificate is
  kept. Three prunings skip children: twins, orbits of the path's stabiliser (with strong generators for a
  base, built by Schreier and Sims), and backjumps when two leaves have equal certificates. The main result is
  `Canonical.CanonicalDecidesIsomorphism`: two models get the same text exactly when they are isomorphic but for keys
  and data attributes. `OrderLaws.ListingForgotten` carries it back to the facts read: the order in which
  GPUs, links, NICs, NUMA nodes and PCI entries are listed never reaches the identity.
- **The leak search.** An index of needles by length scans every line; the report is proved to be that of a double loop
  over identifiers and positions, and over whole files it is fixed: file after file, line after line, match after
  match, each finding of a line once, with its locator. `LeakMeaning.MatchIff` says character by character what a
  match is, so that neither case nor separators hide one.
  For well-formed JSON the locators are JSON pointers (RFC 6901), for XML element paths with `/@name`; following one in
  the document reaches what its span covers (`JsonPointers.SpansPoint`, `XmlPaths.SpansPoint`).
- **The capture pipeline.** Whichever write fails, data files stay in `--out` exactly when the exit code is 0 or 2, and
  then they passed their schemas, a leak search without findings (the one above) and the replay. When no write fails
  the exit code is the one the inputs call for, 3 exactly on a broken schema or a leak. `Publications` says name by name
  what is left. The diagnostics grow after that search; they are clean exactly when the lines added later are.
- **The log follower** for one pod and for several: every line once and in order, over any number of lost connections.
- **The model builder:** the bridges kept, the NVLinks paired, how often each node and edge is in a built model
  (`BuiltModels`), and no edge of it dangling.
- **The windowed put stream** of the transport benchmark: a finished transfer put every byte of every path once, and
  over a transport that completes its puts a transfer finishes. **SHA-256** as FIPS 180-4 states it.

Code that changes state is modelled by classes and loops (`Search`, `StabiliserChain`, `PermGroup`, `RawSet`,
`Locator`, `Disk`, `Run`, `Poller`, `PutStream`), each method proved against a function or predicate on values; what
these mean is then proved in lemmas. Results that a main theorem rests on come earlier in the same file or in the
module it imports. Some definitions are written under a quantifier with a trigger such as `Unfold` or `Open`; that
only keeps them folded in proofs that do not need them.

How the surroundings are modelled:

- The JSON library is a `Printer` of injective functions on labels and certificates (`Stripping.Faithful`);
  `std::sort`, `std::unique` and `std::lower_bound` are `Orders.Sort` and `Orders.Rank`, whose own laws are proved.
- Foreign calls and failures are inputs that may take any value: the answer to a put, the fault of each disk step, how
  a connection ends, which file cannot be read. Nothing is assumed about them but what a `requires` says.
- A log is the final log of a pod; a connection gives some part of it. Stamps never decrease. `LogFollower.Replays`
  asks each replay to start in time, which is exactly what one connection needs (`LogFollower.TakesRestIff`) and
  follows when it leaves out no line stamped at or after the time asked from (`LogFollower.ServedEarly`);
  `RankPoller.AllServe` asks the latter of every poll. Stamps are integers: fixed-width RFC 3339 stamps compare alike
  as text.
- The lines that the capture notes before the leak search, and the times later lines name, are inputs (`Notes`);
  every line after the search is the code's own text.
- `--out` is a map from names to contents; a failed write may leave anything in its own file.
- Integers are unbounded. Colours stay below twice the vertex count, which `kMaxNodes` bounds by 512; the length of a
  SHA-256 message is taken modulo 2 to the 64 bits, as the code does.
- The set of leaves is walked in any order, the kept bridges being proved not to depend on it.

Where the code and its documentation differ, the model follows the code. Three such places:

- A JSON key with an escape other than `\"`, `\\` or `\/` does not appear in the pointer as the key it means, because
  the tokenizer drops the backslash and keeps the letter; `JsonDocuments.KeyMeantIff` gives the exact condition, and
  `JsonDocuments.NewlineKeyMisread` a document.
- The guide says the capture searches `diagnostics.txt` with the other files (docs/guides/fixtures.md:136). The code
  searches what is written so far, then adds lines: on a host named `replay` a capture exits with 0 and leaves that
  name in `diagnostics.txt` (`Pipeline.DiagnosticsMayLeak`). `Pipeline.DiagnosticsCleanIff` says exactly when it is
  clean.
- A resumed log is to lose no line and repeat none. One connection of the follower prints exactly the lines beyond
  those printed if and only if its replay starts no later than the first line with the last stamp, or starts no later
  than the next line and repeats no stamp from there on (`LogFollower.TakesRestIff`). A later start loses the first
  line whose stamp repeats (`LogFollower.LateReplayLoses`); that line can have a newer stamp, because the count of
  lines to skip is not cleared with the stamp (`LogFollower.NewerStampLost`).

## Model

| member | source | states |
|---|---|---|
| Orders.RankOrder | fabric/src/topology/identity.cpp:106-115 | ranks order as the values they stand for, and equal values share a rank |
| Orders.RankDense | fabric/src/topology/identity.cpp:106-115 | every number below the count of distinct values is the rank of one of them |
| Orders.SortForgetsOrder | fabric/src/topology/identity.cpp:106-115 | sorting depends on the values only, not on their order |
| Orders.StringLessIff | fabric/src/topology/identity.cpp:106-115 | texts compare by their first different characters, and a proper prefix is smaller |
| Topology.SameNodeLabelIff | fabric/src/topology/identity.cpp:36-68 | labels are equal exactly when the kinds are and, for a GPU, model and compute capability agree in presence and value, for a NIC vendor and device |
| Topology.SameEdgeLabelIff | fabric/src/topology/identity.cpp:47-78 | labels are equal exactly when the kinds are and, for PCIe, generation and width agree in presence and value, for an NVLink the count of links |
| Topology.NodeLabelHolds | fabric/src/topology/identity.cpp:58-66 | a node's label holds its identity attributes with their values and no others |
| Topology.EdgeLabelHolds | fabric/src/topology/identity.cpp:68-76 | an edge's label holds its identity attributes with their values and no others |
| Stripping.Strip | fabric/src/topology/identity.cpp:117-156 | fails exactly on too many nodes, a key used twice or an edge to an unknown node; else gives the graph of the model's labels |
| Stripping.StrippedValid | fabric/src/topology/identity.cpp:117-156 | the stripped graph's arcs, labels and directions fit its edges |
| Graphs.ArcsAtCount | fabric/src/topology/identity.cpp:143-154 | the arcs at a vertex count the edges at it, by label, direction and other end |
| Graphs.ArcsAtIff | fabric/src/topology/identity.cpp:83-89 | the arcs at a vertex are those of the edges that end there, 1 for the way out, 2 for the way in, 0 without direction |
| Graphs.CarriedIffArcs | fabric/src/topology/identity.cpp:143-154 | a permutation carries the edge multiset exactly when it carries the arcs of every vertex |
| Refinement.Refine | fabric/src/topology/identity.cpp:165-187 | the loop returns the refined colouring, and ends because the cell count grows and is bounded |
| Refinement.RoundGrows | fabric/src/topology/identity.cpp:170-186 | a round that keeps the number of cells changes no cell, and no round loses one |
| Refinement.RoundOrder | fabric/src/topology/identity.cpp:170-186 | a round orders vertices by their colours so far, and those of one colour by label, direction and colour of what they see, where the sorted views first differ |
| Refinement.RefinedKeepsOrder | fabric/src/topology/identity.cpp:163-187 | refined ranks are dense, finer than the input and keep the order of its cells |
| Refinement.RefinedEquitable | fabric/src/topology/identity.cpp:163-187 | vertices of one refined colour see the same labels, directions and colours |
| Refinement.RefinedCoarsest | fabric/src/topology/identity.cpp:163-187 | every equitable colouring finer than the input is finer than the refined one |
| Refinement.RefinedCarried | fabric/src/topology/identity.cpp:163-187 | refining commutes with every isomorphism of graphs |
| Twins.AreTwins | fabric/src/topology/identity.cpp:189-208 | true exactly when exchanging the two vertices preserves the whole edge multiset |
| Twins.SeenIffSwap | fabric/src/topology/identity.cpp:189-208 | the two profiles agree exactly when the transposition carries the edges, loops, parallel and mutual edges included |
| Certificates.Certify | fabric/src/topology/identity.cpp:211-233 | the loops compute the graph relabelled by the position |
| Certificates.CertificateLists | fabric/src/topology/identity.cpp:210-233 | a certificate lists each edge once with its label, by the positions of its ends, and the vertex labels by position |
| Certificates.CertificateCarried | fabric/src/topology/identity.cpp:210-233 | isomorphic positions have equal certificates |
| Certificates.CertificateDecides | fabric/src/topology/identity.cpp:210-233 | equal certificates give an isomorphism of the two graphs |
| Permutations.ComposeLoop | fabric/src/topology/identity.cpp:237-243 | composition from left to right |
| Permutations.InverseLoop | fabric/src/topology/identity.cpp:245-250 | the inverse permutation |
| Permutations.IsIdentity | fabric/src/topology/identity.cpp:252-257 | whether a permutation is the identity |
| Permutations.FirstMoved | fabric/src/topology/identity.cpp:259-264 | the least point moved |
| Permutations.GroupSpan | fabric/src/topology/identity.cpp:386-397 | generators that lie in a group span no more than it |
| SchreierSims.SchreierLemma | fabric/src/topology/identity.cpp:350-378 | when every Schreier generator of a level lies in a subgroup, all elements that fix the level's point do |
| SchreierSims.BuiltHoldsOrbit | fabric/src/topology/identity.cpp:309-331 | a built level holds exactly the orbit of its base point |
| SchreierSims.ChainStabilises | fabric/src/topology/identity.cpp:266-282 | when all levels are closed, the generators that fix a prefix of the base span its pointwise stabiliser |
| SchreierSims.DeeperUnchanged | fabric/src/topology/identity.cpp:371-374 | a residue leaves the generators of the levels below its own as they were |
| SchreierSims.SlackDrops | fabric/src/topology/identity.cpp:278-281 | each residue lowers the measure of the levels, so the loop that jumps back ends |
| StabiliserChains.BuildLevel | fabric/src/topology/identity.cpp:309-331 | orbit, coset representatives and their inverses of a level |
| StabiliserChains.FixesAll | fabric/src/topology/identity.cpp:302-307 | whether a permutation fixes the first base points |
| StabiliserChains.ExtendBase | fabric/src/topology/identity.cpp:273-276 | the base grows until every generator moves a point of it |
| StabiliserChains.StabiliserChain.constructor | fabric/src/topology/identity.cpp:271-282 | terminates, and for every k the strong generators that fix the first k base points span exactly their pointwise stabiliser in the input's group |
| StabiliserChains.StabiliserChain.StabiliserGenerators | fabric/src/topology/identity.cpp:284-291 | the strong generators that fix the first k base points |
| StabiliserChains.StabiliserChain.Sift | fabric/src/topology/identity.cpp:333-345 | strips by elements of the levels passed and stops at a level whose orbit is left, or past the last |
| StabiliserChains.StabiliserChain.CloseLevel | fabric/src/topology/identity.cpp:347-378 | closes a level, or adds a residue and says which level it reopened |
| StabiliserChains.StabiliserChain.CheckRow | fabric/src/topology/identity.cpp:355-376 | the Schreier generators of one representative all sift to the identity, or one leaves a residue |
| StabiliserChains.StabiliserChain.AddResidue | fabric/src/topology/identity.cpp:366-374 | a residue joins the generators and reopens its level; deeper levels stay closed |
| PermGroups.Find | fabric/src/topology/identity.cpp:405-409 | path halving ends at the root, and keeps every element's root |
| PermGroups.PermGroup.Add | fabric/src/topology/identity.cpp:394-397 | the group spanned grows by the permutation added |
| PermGroups.SpanWith | fabric/src/topology/identity.cpp:394-397 | leaving out the identity and repeats spans the same group |
| PermGroups.PermGroup.OrbitsFixing | fabric/src/topology/identity.cpp:399-430 | a partition of the cell into its orbits under the stabiliser of the prefix, in order of first members |
| PermGroups.JoinedNamesOrbits | fabric/src/topology/identity.cpp:410-418 | joining each point of the cell with its images under generators of the stabiliser names the orbits |
| SearchTree.TreeCarried | fabric/src/topology/identity.cpp:457-468 | isomorphic graphs have the same set of leaf certificates |
| SearchTree.ChildSplits | fabric/src/topology/identity.cpp:524-533 | the vertex of a child comes right before the rest of its cell, and the cells keep their order |
| SearchTree.ExchangedChildren | fabric/src/topology/identity.cpp:460-471 | an automorphism that fixes the path maps child subtrees to ones with the same certificates |
| SearchTree.GammaMapsPath | fabric/src/topology/identity.cpp:463-468 | equal certificates map one leaf's path onto the other's, position by position |
| SearchTree.LeafIsBelow | fabric/src/topology/identity.cpp:464-466 | each leaf is below every node on its path, so its certificate is one of theirs |
| Pruning.EqualLeavesRedundant | fabric/src/topology/identity.cpp:554-570 | two equal leaves make the rest of the child at the depth of their paths' difference redundant |
| Pruning.TwinsExchanged | fabric/src/topology/identity.cpp:469-471 | a child whose vertex is a twin of another's can be exchanged with it |
| Pruning.OrbitExchanged | fabric/src/topology/identity.cpp:469-471 | two children in one orbit of the path's stabiliser can be exchanged |
| Pruning.StabiliserKeepsCell | fabric/src/topology/identity.cpp:399-402 | the stabiliser of the path maps its open cell to itself |
| Searches.FindOpen | fabric/src/topology/identity.cpp:494-500 | the first cell with more than one vertex, or none exactly when the colouring is discrete |
| Searches.Representatives | fabric/src/topology/identity.cpp:501-509 | vertices of the cell of which every other is a twin |
| Searches.Search.Run | fabric/src/topology/identity.cpp:491-540 | after a subtree the best certificate is no larger than any leaf of it, pruned ones included, or a jump leads to a node it is redundant for |
| Searches.Search.Branch | fabric/src/topology/identity.cpp:514-539 | the children left out by twins and orbits are covered by those explored |
| Searches.Search.TryChild | fabric/src/topology/identity.cpp:514-537 | one representative is skipped with reason, or individualised, refined and explored |
| Searches.Search.AtLeaf | fabric/src/topology/identity.cpp:542-574 | a leaf's certificate is counted and compared; equal ones add an automorphism and give the depth to resume at; the leaf past the millionth ends the search |
| Searches.CellOrbits | fabric/src/topology/identity.cpp:517-523 | orbit numbers agree exactly within orbits of the path's stabiliser |
| Searches.RepresentativesCover | fabric/src/topology/identity.cpp:501-509 | covering the representatives covers the whole cell |
| Canonical.SearchMinimum | fabric/src/topology/identity.cpp:598-603 | the pruned search returns the least certificate over all leaves of the unpruned tree, or the tree exceeds the leaf cap |
| Canonical.CanonicalIdentityJson | fabric/src/topology/identity.cpp:598-603 | fails exactly as strip does, or on a tree with too many leaves; else gives the canonical text |
| Canonical.ModelsToGraphs | fabric/src/topology/identity.cpp:117-156 | isomorphic models strip to isomorphic graphs |
| Canonical.GraphsToModels | fabric/src/topology/identity.cpp:117-156 | isomorphic stripped graphs with the same labels come from isomorphic models |
| Canonical.CanonicalDecidesIsomorphism | fabric/src/topology/identity.hpp:12-17 | two canonical texts are equal exactly when a matching of nodes and edges keeps kinds, ends, the directions of PCIe and NUMA edges, and exactly the identity attributes, whatever the keys, the order and other attributes |
| OrderLaws.OrderForgotten | fabric/src/topology/identity.hpp:12-14 | the same nodes and edges in another order make an isomorphic model |
| OrderLaws.KeysForgotten | fabric/src/topology/identity.hpp:12-14 | renaming the keys makes an isomorphic model |
| OrderLaws.BuiltSame | fabric/src/topology/builder.cpp:25-180 | models built from facts listed in another order hold the same nodes and edges: GPUs, links, NICs, NUMA nodes, and PCI entries with the same last one for each key |
| OrderLaws.DistinctAnyOrder | fabric/src/topology/builder.cpp:27-30 | PCI entries of distinct keys may come in any order |
| OrderLaws.ListingForgotten | fabric/src/topology/identity.hpp:12-14 | so they have the same canonical text |
| RawIdentifiers.NeedleNormalised | fabric/tools/topo-capture/core/leak.cpp:910-915 | needles are fixed by their mode's normalisation |
| RawIdentifiers.RawSet.Add | fabric/tools/topo-capture/core/leak.cpp:910-928 | the whole new set: what is dropped, too short, of zeros or ones only, or known already; mode and needle stay unique, long enough and normalised |
| RawIdentifiers.RawSet.Keep | fabric/tools/topo-capture/core/leak.cpp:927-929 | an entry joins the set unless its mode and needle are there |
| RawIdentifiers.RawSet.AddDefault | fabric/tools/topo-capture/core/leak.cpp:905-908 | the mode follows the kind: hex for addresses, GUIDs and machine ids, token for the others |
| LeakScan.BuildIndex | fabric/tools/topo-capture/core/leak.cpp:347-360 | every entry is found in the part of the index that searches for it, and nothing else is |
| LeakScan.Normalise | fabric/tools/topo-capture/core/leak.cpp:375-382 | the line without separators and case, and where each of its characters comes from |
| LeakScan.ScanHex | fabric/tools/topo-capture/core/leak.cpp:374-395 | exactly the hex needles read on from a non-separator, each once |
| LeakScan.RunAnchors | fabric/tools/topo-capture/core/leak.cpp:400-418 | inside a maximal run of token characters only the run itself is an anchored needle |
| LeakScan.ScanTokens | fabric/tools/topo-capture/core/leak.cpp:397-437 | exactly the token needles whose ends split no token, each once |
| LeakScan.Scan | fabric/tools/topo-capture/core/leak.cpp:439-447 | reports exactly the matches of the double loop, in order of offset and then of the search |
| LeakScan.ReportUnique | fabric/tools/topo-capture/core/leak.cpp:439-447 | a line has only one such report |
| LeakMeaning.MatchIff | fabric/tools/topo-capture/core/leak.cpp:46-75 | a hex identifier matches where it is spelled from a character that is no separator, case and separators left out; a token identifier where it stands in any case, neither end inside a longer token |
| LeakMeaning.CleanIff | fabric/tools/topo-capture/core/leak.cpp:439-447 | a text is clean exactly when no identifier stands anywhere in it |
| LeakMeaning.CaseForgotten | fabric/tools/topo-capture/core/leak.cpp:54-63 | lines that differ in the case of ASCII letters only have the same matches |
| LeakMeaning.ValueCaseForgotten | fabric/tools/topo-capture/core/leak.cpp:910-915 | values that differ in the case of ASCII letters only have the same needle |
| LeakMeaning.SeparatorForgotten | fabric/tools/topo-capture/core/leak.cpp:65-74 | a separator inside a hex identifier makes no difference to its needle |
| LeakMeaning.LineSeparatorForgotten | fabric/tools/topo-capture/core/leak.cpp:374-395 | a separator anywhere in a line neither hides a hex identifier nor brings one up |
| LeakMeaning.NeedleIs | fabric/tools/topo-capture/core/leak.cpp:910-915 | a needle is the trimmed value in lower case, a hex one without its separators |
| LeakMeaning.TrimmedIs | fabric/tools/topo-capture/core/leak.cpp:76-84 | trimming drops blanks at the ends and nothing else |
| Spans.UpperBound | fabric/tools/topo-capture/core/leak.cpp:647-647 | the binary search for the first span beginning past an offset |
| Spans.At | fabric/tools/topo-capture/core/leak.cpp:642-652 | agrees with a search from the back for the last span beginning at or before the offset |
| Spans.NearestCovers | fabric/tools/topo-capture/core/leak.cpp:642-652 | a span that holds the offset is the one found |
| Spans.IsSpaceIff | fabric/tools/topo-capture/core/leak.cpp:513-513 | white space is the space and the characters from the tab to the carriage return |
| JsonSpans.Scan | fabric/tools/topo-capture/core/leak.cpp:468-543 | terminates on every text; the spans are those of the tokenizer, in order and without overlap |
| JsonSpans.SpansOrdered | fabric/tools/topo-capture/core/leak.cpp:468-543 | strictly increasing begins, no overlap, whatever the text |
| JsonDocuments.DocumentPointers | fabric/tools/topo-capture/core/leak.cpp:468-543 | in a well-formed document each key, string and bare value gets one span over its text, with its JSON pointer |
| JsonDocuments.PointerAt | fabric/tools/topo-capture/core/leak.hpp:97-98 | an offset inside a key, string or bare value is located by its pointer |
| JsonPointers.SpansPoint | fabric/tools/topo-capture/core/leak.cpp:468-543 | evaluating the pointer of any span in the document, tokens of arrays read as numbers and those of objects as keys without their backslashes, reaches the value or key the span covers |
| JsonPointers.DecimalReads | fabric/tools/topo-capture/core/leak.cpp:478-487 | an index is printed as its decimal digits, without a leading zero |
| JsonDocuments.TokenNamesKey | fabric/tools/topo-capture/core/leak.cpp:454-466 | a pointer token evaluates to its key and holds no slash |
| JsonDocuments.KeyMeantIff | fabric/tools/topo-capture/core/leak.cpp:512-524 | the key in a pointer is the key meant exactly when its escapes only spell quotes, backslashes and slashes |
| JsonDocuments.NewlineKeyMisread | fabric/tools/topo-capture/core/leak.cpp:512-524 | a key with an escaped newline is located by the pointer of another key |
| XmlSpans.Scan | fabric/tools/topo-capture/core/leak.cpp:545-636 | terminates on every text; the spans are those of the scanner, in order and without overlap |
| XmlSpans.SpansOrdered | fabric/tools/topo-capture/core/leak.cpp:545-636 | strictly increasing begins, no overlap, whatever the text |
| XmlDocuments.DocumentPaths | fabric/tools/topo-capture/core/leak.cpp:545-636 | in a well-formed document each tag, text and attribute value gets one span over its characters, with its path |
| XmlDocuments.PathAt | fabric/tools/topo-capture/core/leak.hpp:97-98 | an offset inside a tag, text or attribute value is located by its path |
| XmlPaths.SpansPoint | fabric/tools/topo-capture/core/leak.cpp:545-636 | following the path of any span from the root down, each name after a slash, reaches the element, text or attribute the span covers |
| XmlPaths.TextElement | fabric/tools/topo-capture/core/leak.cpp:545-636 | an element that holds a text is well formed, and its tag and its text are located by its path |
| LeakSearch.Locator.At | fabric/tools/topo-capture/core/leak.cpp:638-669 | the locator of the nearest span, the spans being built by extension at the first use |
| LeakSearch.ReportLine | fabric/tools/topo-capture/core/leak.cpp:1022-1030 | the findings of one line join the earlier ones, none twice |
| LeakSearch.Search | fabric/tools/topo-capture/core/leak.cpp:989-1036 | the report holds each file's findings in turn, its lines in order and each line's matches in order, each finding of a line once; a finding is there exactly when some match of some line, or an unreadable file, calls for it |
| LeakSearch.FilesReportUnique | fabric/tools/topo-capture/core/leak.cpp:989-1036 | there is only one such report |
| LeakSearch.NoFindingsIff | fabric/tools/topo-capture/core/leak.hpp:106-110 | no findings exactly when every file was read and no line has a match |
| LeakSearch.FindingSafe | fabric/tools/topo-capture/core/leak.hpp:97-98 | file names and locators in findings hold no identifier, or are withheld |
| LeakPlaces.LineStands | fabric/tools/topo-capture/core/leak.cpp:1007-1021 | the line of index n stands in the text at its start, without line end or carriage return, with n line ends in front of it |
| LeakPlaces.LineOf | fabric/tools/topo-capture/core/leak.cpp:1007-1021 | every character that ends no line stands in a line |
| LeakPlaces.FindingStands | fabric/tools/topo-capture/core/leak.cpp:1022-1030 | a finding names a place where an identifier stands: its line counted from 1, the locator of that very offset, the kind |
| LeakPlaces.LocatorsByName | fabric/tools/topo-capture/core/leak.cpp:654-663 | files whose names end in .json and .xml have the spans of their kind, others none |
| Pipeline.Disk.WriteManifest | fabric/tools/topo-capture/core/manifest.cpp:197-217 | no partial manifest is ever in place, and no temporary one is left |
| Pipeline.Run.Collect | fabric/tools/topo-capture/core/pipeline.cpp:409-450 | the files to publish, or the error code of the first source that failed |
| Pipeline.Run.Check | fabric/tools/topo-capture/core/pipeline.cpp:451-505 | fails exactly when a file breaks its schema, holds an identifier or cannot be read, or the lines noted so far hold one; and which of these is a leak |
| Pipeline.Run.PassSchemas | fabric/tools/topo-capture/core/pipeline.cpp:241-261 | passes exactly when every file but hwloc.xml can be read and passes its schema |
| Pipeline.Run.Judge | fabric/tools/topo-capture/core/pipeline.cpp:485-505 | a finding in a file that was read is recorded as a leak, one for a file that was not as unreadable |
| Pipeline.Run.SearchLeaks | fabric/tools/topo-capture/core/pipeline.cpp:466-505 | the diagnostics are staged and searched as they stand; the run fails exactly when a file searched is not clean |
| Pipeline.Run.Handle | fabric/tools/topo-capture/core/pipeline.cpp:386-399 | each exception is noted in its own words and recorded under its own code |
| Pipeline.Run.Publish | fabric/tools/topo-capture/core/pipeline.cpp:517-524 | on success the data files in --out are exactly those staged, and the manifest lists their hashes |
| Pipeline.Run.StageAndCheck | fabric/tools/topo-capture/core/pipeline.cpp:409-525 | ends ready to record, failing with a known code, or with an exception and nothing unlisted in --out |
| Pipeline.Run.Go | fabric/tools/topo-capture/core/pipeline.cpp:381-401 | every run ends with all published or all withdrawn; what is left in the diagnostics is the text searched and the lines noted after it; the exit code is 3 exactly on a broken schema or a leak once the search is reached, and when no step fails it is the one the inputs call for |
| Pipeline.Run.Attempt | fabric/tools/topo-capture/core/pipeline.cpp:381-385 | when no step fails it ends as sources, checks and replay call for; it notes a broken schema or a leak exactly when there is one |
| Pipeline.Run.ToFailedForm | fabric/tools/topo-capture/core/pipeline.cpp:560-569 | no data file is left, and the manifest lists none and has no id |
| Pipeline.Run.WriteRecord | fabric/tools/topo-capture/core/pipeline.cpp:578-588 | notes the exit code; on success the diagnostics hold every line noted and the manifest in place is the run's own |
| Pipeline.Run.Finish | fabric/tools/topo-capture/core/pipeline.cpp:527-558 | the record matches what is in --out, or everything is withdrawn |
| Pipeline.PrepareOut | fabric/tools/topo-capture/core/pipeline.cpp:315-357 | refuses what holds no previous capture; else removes its reserved names and no other |
| Pipeline.Capture | fabric/tools/topo-capture/core/pipeline.cpp:623-636 | a refused directory is unchanged; otherwise the run is publication safe whatever steps fail; 3 is the exit code exactly on a broken schema or a leak once the search is reached, and when no step fails the inputs give the exit code |
| Pipeline.AnyMatchFails | docs/rfcs/0003-topology-fixtures.md:157-157 | a match in any file searched, or a broken schema, withdraws the capture whatever else fails |
| Pipeline.DataIffExit | fabric/tools/topo-capture/core/pipeline.cpp:560-569 | data files and a topology id remain exactly when the exit code is 0 or 2 |
| Pipeline.PublishedClean | fabric/tools/topo-capture/core/pipeline.hpp:47-57 | a published file holds no identifier on any line, matches its schema and is listed with its hash |
| Publications.PublishedFiles | fabric/tools/topo-capture/core/pipeline.cpp:437-449 | hwloc.xml, nics.json and meta.json hold the bytes of their sources, nvml.json is there exactly when NVML was read, links.json exactly when links were given |
| Publications.PublishedChecked | fabric/tools/topo-capture/core/pipeline.cpp:517-523 | each published file but hwloc.xml passed its schema; each is clean and listed with its hash, and no other file is listed |
| Publications.PublishedId | fabric/tools/topo-capture/core/pipeline.cpp:507-515 | the id is that of the replay of exactly the published files |
| Publications.BrokenWithdrawn | fabric/tools/topo-capture/core/pipeline.cpp:462-465 | a broken schema of nvml.json, nics.json, links.json or meta.json leaves no data file, whatever else happens |
| Publications.NoneLeft | fabric/tools/topo-capture/core/pipeline.cpp:560-569 | some data file is left exactly when the exit code is 0 or 2 |
| Publications.SearchedIff | fabric/tools/topo-capture/core/pipeline.cpp:468-484 | the leak search reads each staged file under its name, and the diagnostics as far as they are written |
| Publications.FailureExplained | fabric/tools/topo-capture/core/pipeline.cpp:402-405 | the manifest of a failed capture gives a reason, out of those with a message |
| Publications.CleanedIff | fabric/tools/topo-capture/core/pipeline.cpp:344-355 | of what was in --out exactly the five data files and the record are removed |
| Publications.OthersAsBefore | fabric/tools/topo-capture/core/pipeline.cpp:315-316 | a file of any other name is as it was |
| Publications.ExitNoted | fabric/tools/topo-capture/core/pipeline.cpp:578-584 | with a manifest there are diagnostics, and their last line is the exit code |
| Diagnostics.Render | fabric/tools/topo-capture/core/diagnostics.cpp:7-16 | the loop joins the lines, with no separator before the first text |
| Diagnostics.WrittenClean | fabric/tools/topo-capture/core/diagnostics.cpp:7-16 | the text written holds an identifier exactly when some line noted does |
| Pipeline.DiagnosticsCleanIff | fabric/tools/topo-capture/core/pipeline.cpp:466-515 | the diagnostics of a run that succeeded are clean exactly when the lines noted after the leak search are |
| Pipeline.ReplayHostLeaks | fabric/tools/topo-capture/core/pipeline.cpp:515-515 | every run that succeeds on a host named replay leaves that name in the diagnostics |
| Pipeline.DiagnosticsMayLeak | fabric/tools/topo-capture/core/pipeline.cpp:466-515 | a capture on a host named replay exits with 0, and its diagnostics are not clean |
| Pipeline.OthersKept | fabric/tools/topo-capture/core/pipeline.cpp:315-316 | files that are not the capture's own are kept as they were |
| LogFollower.ReplayTakes | tools/ostia-dev/src/ostia_dev/remote/k8s/backend.py:343-352 | in a replay that starts in time a line is printed exactly when it was not printed before |
| LogFollower.TakeLine | tools/ostia-dev/src/ostia_dev/remote/k8s/backend.py:344-352 | what a line does to the last stamp, the count at it and the lines to skip |
| LogFollower.Follow | tools/ostia-dev/src/ostia_dev/remote/k8s/backend.py:340-358 | one connection prints the lines it reaches beyond those printed, up to the one that finishes the run |
| LogFollower.Stream | tools/ostia-dev/src/ostia_dev/remote/k8s/backend.py:335-368 | over any connections that start in time the lines reached are printed once each and in order, and the outcome is that of the first connection that ends the run |
| LogFollower.AfterConnection | tools/ostia-dev/src/ostia_dev/remote/k8s/backend.py:359-381 | exactly when the follower fails, finds the pod over, gives up for good or goes on |
| LogFollower.TakesRestIff | tools/ostia-dev/src/ostia_dev/remote/k8s/backend.py:338-352 | one connection prints exactly the lines beyond those printed if and only if its replay starts in time |
| LogFollower.ServedEarly | tools/ostia-dev/src/ostia_dev/remote/k8s/backend.py:341-341 | a replay of every line since the last stamp starts in time |
| LogFollower.LateReplayLoses | tools/ostia-dev/src/ostia_dev/remote/k8s/backend.py:343-352 | a replay from past the first line with the last stamp loses the first line whose stamp repeats, and comes out short |
| LogFollower.NewerStampLost | tools/ostia-dev/src/ostia_dev/remote/k8s/backend.py:349-350 | a log whose lost line has a newer stamp than the last printed: the lines to skip are not cleared with the stamp |
| LogFollower.LateReplayMayServe | tools/ostia-dev/src/ostia_dev/remote/k8s/backend.py:343-352 | a log for which the same late start loses nothing, no stamp being repeated |
| RankPoller.SinceServesAll | tools/ostia-dev/src/ostia_dev/remote/k8s/backend.py:393-394 | the second of the earliest last stamp is early enough for every pod |
| RankPoller.SinceIs | tools/ostia-dev/src/ostia_dev/remote/k8s/backend.py:393-394 | asks for everything exactly while some pod has printed nothing, else from the last full second that is past no pod's last stamp |
| RankPoller.Poller.TakeTagged | tools/ostia-dev/src/ostia_dev/remote/k8s/backend.py:409-428 | one line changes its own pod's memory only, and lines of other pods nothing |
| RankPoller.Poller.ReadLines | tools/ostia-dev/src/ostia_dev/remote/k8s/backend.py:408-428 | after a poll's lines every rank has printed its share once and in order |
| RankPoller.Poller.OnePoll | tools/ostia-dev/src/ostia_dev/remote/k8s/backend.py:392-443 | finished exactly when every pod has; else over, failed, lost for good or polled again as the poll and the time lost say |
| RankPoller.PollRanks | tools/ostia-dev/src/ostia_dev/remote/k8s/backend.py:383-443 | every rank's lines are printed once and in order whatever the interleaving; finishes exactly when every pod has, and otherwise ends at the first poll with a pod missing, refused logs or too long a loss, and at no earlier one |
| BridgePruning.Keep | fabric/src/topology/builder.cpp:87-96 | keeps exactly the leaves and all that lies above them, in any order and with cyclic parents; fails exactly on an unknown parent |
| BridgePruning.WalkUp | fabric/src/topology/builder.cpp:90-95 | the walk from one leaf may stop at a key kept before |
| NvLinks.TallyAll | fabric/src/topology/builder.cpp:123-155 | counts the active links each GPU reports and the pairs seen; fails exactly on a link to an unknown GPU |
| NvLinks.WeakerSide | fabric/src/topology/builder.cpp:156-167 | the least count over the sides that report |
| NvLinks.PairEdges | fabric/src/topology/builder.cpp:156-171 | one edge for each pair with a positive count and no other, in the order of the pairs |
| NvLinks.SwitchEdges | fabric/src/topology/builder.cpp:172-177 | one edge for each GPU with links to a switch, in the order of the GPUs |
| NvLinks.EdgesAnyOrder | fabric/src/topology/builder.cpp:122-178 | the edges do not depend on the order of GPUs or of their links |
| NvLinks.OneEdgeForPair | fabric/src/topology/builder.cpp:122-171 | an unordered pair has at most one edge |
| Builder.AddPci | fabric/src/topology/builder.cpp:98-120 | the nodes of kept bridges, the edges from parents, and those to NUMA nodes |
| Builder.Build | fabric/src/topology/builder.cpp:25-180 | succeeds exactly when every reference is known, and then builds the model the facts describe; else says which file and key, or that a parent, is not known |
| BuiltModels.NodeCount | fabric/src/topology/builder.cpp:25-120 | a node is in a built model as often as the facts say and no other is: package, NUMA node, GPU, NIC with the vendor and device of its PCI entry, kept bridge, and the switch group when some GPU has a link to a switch |
| BuiltModels.PcieEdgeCount | fabric/src/topology/builder.cpp:98-113 | a pcie edge is there once for each kept entry with that parent, with gen and width exactly where the entry has them |
| BuiltModels.NumaEdgeCount | fabric/src/topology/builder.cpp:114-118 | an edge to a NUMA node is there once for each time the entry of a GPU or NIC lists it |
| BuiltModels.NvLinkEdgeCount | fabric/src/topology/builder.cpp:122-178 | an NVLink edge is there once where it joins a pair of GPUs, or a GPU and a switch, with their count |
| BuiltModels.LastCounts | fabric/src/topology/builder.cpp:27-30 | of the PCI entries with one key the last counts |
| Builder.PcieEdgeJoins | fabric/src/topology/builder.cpp:98-113 | both ends of a pcie edge are nodes |
| Builder.BuiltModelJoined | fabric/src/topology/builder.cpp:98-178 | no edge of a built model dangles when every parent is a bridge or a leaf |
| PutStreams.PutStream.IssueOne | fabric/bench/common/ucx.cpp:456-466 | the next put follows the last one, and is outstanding, completed or refused |
| PutStreams.PutStream.Issue | fabric/bench/common/ucx.cpp:456-466 | puts are issued until the range ends or the window is full, never beyond it |
| PutStreams.PutStream.Reap | fabric/bench/common/ucx.cpp:467-480 | exactly the requests still in progress stay outstanding |
| PutStreams.PutStream.Step | fabric/bench/common/ucx.cpp:454-481 | keeps the window and the tiling of the range; over a reliable transport it succeeds and leaves less to wait for |
| PutStreams.PutStream.DoneMovesAll | fabric/bench/common/ucx.cpp:482-482 | when done, every byte of the range was put once, by a put that completed |
| PutStreams.DoneMovesOnce | fabric/bench/common/ucx.cpp:654-675 | when all streams are done each put exactly the bytes of its path, and over distinct paths no byte is held by two puts |
| PutStreams.PathsPatience | fabric/bench/common/ucx.cpp:467-480 | when every put of every path completes at last, all complete from one tick on, so enough rounds finish |
| PutStreams.Transfer | fabric/bench/common/ucx.cpp:654-683 | success means flushed, the bytes counted, and every byte of every path put once by a put that completed; no window is exceeded in any run, and every put but the last of a path has the chunk asked for; over a transport that completes its puts by tick n, more than n plus the bytes of a path rounds succeed |
| PutStreams.PathsDisjoint | fabric/bench/common/ucx.cpp:658-661 | distinct paths write disjoint ranges |
| Sha256.Compress | fabric/src/topology/sha256.cpp:23-53 | the block function of section 6.2.2 of FIPS 180-4 |
| Sha256Constants.RoundRoots | fabric/src/topology/sha256.cpp:11-19 | the round constants are the first 32 bits of the fractional parts of the cube roots of the first 64 primes |
| Sha256Constants.InitialRoots | fabric/src/topology/sha256.cpp:58-59 | the initial hash is that of the square roots of the first eight primes |
| Sha256Constants.BigSigma0Is | fabric/src/topology/sha256.cpp:39-39 | the rotations of section 4.1.2 of FIPS 180-4, by their shifts |
| Sha256Constants.BigSigma1Is | fabric/src/topology/sha256.cpp:36-36 | the rotations of section 4.1.2 of FIPS 180-4, by their shifts |
| Sha256Constants.SmallSigma0Is | fabric/src/topology/sha256.cpp:30-30 | the rotations and the shift of section 4.1.2 of FIPS 180-4 |
| Sha256Constants.SmallSigma1Is | fabric/src/topology/sha256.cpp:31-31 | the rotations and the shift of section 4.1.2 of FIPS 180-4 |
| Sha256Constants.ChChooses | fabric/src/topology/sha256.cpp:37-37 | each bit is chosen by the first word between the other two |
| Sha256Constants.MajAgrees | fabric/src/topology/sha256.cpp:40-40 | where two words agree, the third has no say |
| Sha256Constants.MajAnyOrder | fabric/src/topology/sha256.cpp:40-40 | the three words may change places |
| Sha256Constants.SumCounts | fabric/src/topology/sha256.cpp:37-42 | addition modulo 2 to the 32 |
| Sha256Constants.WordBigEndian | fabric/src/topology/sha256.cpp:25-28 | the first of four bytes is the highest of the word |
| Sha256Constants.LowBytesAre | fabric/src/topology/sha256.cpp:72-74 | the bytes of the length spell it |
| Sha256Constants.HexWordSpells | fabric/src/topology/sha256.cpp:78-85 | the eight hex digits of a word spell it, the highest first |
| Sha256.ZeroCountLeast | fabric/src/topology/sha256.cpp:65-72 | the padding uses the least number of zeros section 5.1.1 of FIPS 180-4 allows |
| Sha256.FillTail | fabric/src/topology/sha256.cpp:65-75 | the tail buffer holds exactly the end of the padded message |
| Sha256.Sha256Hex | fabric/src/topology/sha256.cpp:57-87 | streaming gives the digest of the padded message |

## Left out

- `topo1`'s prefix and `pair_id`: two calls around the canonical text and the hash; `swap_ends` and the debug-only `is_automorphism` check go with them.
- Collision resistance of SHA-256: `topo1` differs for models that are not isomorphic only as far as the hash does.
- Collecting identifiers from the host, address parsing and the derived forms of an identifier: the set of raw entries is an input, and `RawIdentifiers.RawSet.Add` takes the check for dropped addresses as a parameter.
- Hooks for tests, signals, the tracking for cleanup and the summary on the terminal. The diagnostics lines noted before the leak search are inputs of `Pipeline`, those of clearing `--out` among them.
- Pipeline.DiagnosticsCleanIff: speaks of runs that succeed; the diagnostics of a failed run need not have been searched, and only their last line is stated.
- Durability: syncing and renaming are steps that may fail; what a crash of the machine leaves is not modelled.
- Removing a file is taken to succeed, as the code ignores the failure.
- JsonDocuments.DocumentPointers: white space is that of RFC 8259; a byte order mark and texts that are not well formed are covered by `JsonSpans.SpansOrdered` only.
- JsonDocuments.KeyMeantIff: each `\u` escape is taken to stand for at most four bytes on its own; surrogate pairs are not joined.
- XmlDocuments.DocumentPaths: markup is a comment, instruction or declaration that ends at its first end mark; a CDATA section or an internal subset with `>` inside is covered by `XmlSpans.SpansOrdered` only.
- LogFollower.Stream: a line cut short by a lost connection is not modelled; the lines of a connection are whole.
- RankPoller.PollRanks: an error other than a lost connection while asking for the pods' status, which ends the polling at once, is not modelled.
- PutStreams.Transfer: runs for a given number of rounds, since the loop need not end when the transport never completes a put; timing and rates are left out.
- Attribute values, messages of errors, command lines, statistics, manifests of Kubernetes and the other tools of the repository.
