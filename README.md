# CPPN-NEAT core in Dafny

This project models the machinery behind the repository's CPPN-NEAT genetic algorithms.

A CPPN-NEAT genome is a collection of neuron genes and link genes. Every link gene carries an
innovation number, handed out by a registry that the whole GA shares. Genomes are:

- aligned gene by gene on those numbers;
- crossed over and compared through the alignment;
- turned into a network of neurons whose activation can be evaluated;
- grouped into species by a speciated, generational GA.

The model covers:

- **Text** (`text.dfy`): decimal rendering and parsing of integers, as the `ToString` formats use them.
- **MathExtensions** (`math_extensions.dfy`): RNG draws as parameters, `RandomInteger`, C#'s truncating
  `%`, `AbsMod`, `Math.Ceiling`, the `int` conversion and `Enumerable.Average`.
- **ListExtensions** (`list_extensions.dfy`): Fisher-Yates `Shuffle` over an array, `RandomSingle`,
  `RandomTake`, roulette-wheel selection and `MaxBy`.
- **Maps** (`maps.dfy`): `MapNode` arithmetic, equality and text, and the grid `Map` of the NEAT
  spaces experiments. The grid has its indexers, neighbour function, `Copy`, `Length` and the
  zero rule of `DistanceFromStartToEnd`.
- **Network** (`network.dfy`): the phenotype. It covers bias, input, output and hidden neurons, the
  re-entrancy guard of `Activation`, and the `CPPNNetwork` that registers neurons, links them and
  loads inputs.
- **Genes** (`genes.dfy`): neuron and link genes, their type letters, `ToString` layouts, `Update`
  and `Copy`.
- **Innovations** (`innovation.dfy`): the innovation registry of `BaseCPPNNEATGA`. It holds the
  default topology, memoised edge numbers and hidden neurons, and the periodic clearing of the
  edge cache.
- **Alignments** (`alignment.dfy`): `DifferenceAnalysis`, the merge walk that splits two gene
  lists sorted by innovation number into matches, disjoint genes and excess genes.
- **GeneCollections** (`gene_collection.dfy`): a genome's gene table. It holds the neuron set, the
  candidate connections, the orphaned neurons and the cached sorted view. Its operations add,
  enable, disable and split links, propagate orphaning, and initialise from the default topology.
- **Crossovers** (`crossover.dfy`): the crossover constructor, `InnerCrossover` and `InnerCopy`.
- **Genomes** (`genome.dfy`): the compatibility distance, the function-difference measures, and the
  genome's `ToString`.
- **GeneticAlgorithms** (`genetic_algorithms.dfy`): the genome staleness protocol, `Species`, and the
  GA. The GA covers population initialisation, best and average caches, speciation,
  stagnation bookkeeping, generational selection and `GenerationalIterate`.

The repository carries the same classes in three near-duplicate generations: `CPPNNEAT/`,
`ComplexCPPNNEAT/` and `NEATSpacesLibrary/`. The model follows one shared definition and records
where they differ:

- **Input check in the registry constructor.** `ComplexCPPNNEAT` and `CPPNNEAT` reject fewer than
  one input (`Innovations.NewCPPNNEATGA`). `NEATSpacesLibrary` rejects only zero; a negative count
  fails later, when the lists are built (`Innovations.NewNEATSpacesGA`).
- **Crossover of matched genes.** The `ComplexCPPNNEAT` genome blends or averages matched genes
  and may disable the result. The `NEATSpacesLibrary` genome picks one parent's gene and may
  re-enable it. `Crossovers.Mating` has one case for each.
- **Function analysis.** `NEATSpacesLibrary` counts functions over the canonical list
  (`Genomes.FunctionAnalysis`, `Genomes.CanonicalDifference`). The other two generations take
  the union of the labels in use (`Genomes.FunctionDifference`).
- **Speciated GA.** The speciated genome and the speciated GA of `GeneticAlgorithms/` and
  `CPPNNEAT/GeneticAlgorithms/` are folded into `GeneticAlgorithms.Genome` and
  `GeneticAlgorithms.GA`.

The model uses these conventions:

- Exceptions become `Failure` values named after the .NET exception they model.
- Random numbers are draws in [0, 1), passed in as parameters.
- Weights and activations are complex numbers over exact reals.
- The concrete genome's `InnerMutate` and `InnerCrossover`, the phenome builder and the fitness
  function are parameters of the GA.

## Model

| member | source | states |
|---|---|---|
| Text.ParseNatRoundTrip | ComplexCPPNNEAT/CPPNNEATNeuronGene.cs:127 | the decimal text of a natural number parses back to that number |
| Text.IntRoundTrip | ComplexCPPNNEAT/CPPNNEATNeuronGene.cs:127 | the text of an integer, with its minus sign, parses back to that integer |
| MathExtensions.RandomInteger | DotNetExtensions/MathExtensions.cs:56-66 | fails exactly when from > to; returns from on an empty range; otherwise lands in [from, to) |
| MathExtensions.RandomIntegerBelow | DotNetExtensions/MathExtensions.cs:68-71 | the one-argument overload delegates to the range [0, max): fails exactly when max < 0, and lands in [0, max) |
| MathExtensions.CSharpRem | DotNetExtensions/MathExtensions.cs:80 | C#'s truncating remainder: n = b·q + r, r has the sign of n, and abs(r) < abs(b) |
| MathExtensions.AbsMod | DotNetExtensions/MathExtensions.cs:78-88 | a zero divisor throws; for a positive divisor the result lies in [0, b) |
| MathExtensions.AbsModIsEuclidean | DotNetExtensions/MathExtensions.cs:78-88 | for b > 0, AbsMod is the Euclidean remainder, so AbsMod(n, b) − n is a multiple of b |
| MathExtensions.AbsModIdempotent | DotNetExtensions/MathExtensions.cs:78-88 | applying AbsMod to its own result changes nothing |
| MathExtensions.Ceil | GeneticAlgorithms/BaseSpeciatedGA.cs:180-182 | the least integer not below x |
| MathExtensions.ToInt32 | GeneticAlgorithms/BaseSpeciatedGA.cs:132 | the conversion to int keeps values in range and gives int.MinValue outside it |
| MathExtensions.Mean | GeneticAlgorithms/BaseGA.cs:175 | Average throws InvalidOperationException exactly on an empty sequence; otherwise mean × count = sum |
| ListExtensions.Swap | DotNetExtensions/ListExtensions.cs:44-46 | exchanges the two cells, keeps every other cell and the multiset |
| ListExtensions.PartnerIndex | DotNetExtensions/ListExtensions.cs:42 | step i swaps with a strictly later position below Count |
| ListExtensions.ShuffleSteps | DotNetExtensions/ListExtensions.cs:40-47 | every prefix of the shuffle loop keeps the length and the multiset |
| ListExtensions.Shuffle | DotNetExtensions/ListExtensions.cs:38-48 | an empty list throws and is left as it was; otherwise the array ends as the shuffle of its old contents, a permutation of them |
| ListExtensions.ShuffledIndicesArePermutation | DotNetExtensions/ListExtensions.cs:38-48 | shuffling 0..m−1 yields m pairwise-distinct indices below m |
| ListExtensions.RandomSingle | DotNetExtensions/ListExtensions.cs:50-53 | default exactly on an empty list, otherwise an element of the list |
| ListExtensions.RandomTake | DotNetExtensions/ListExtensions.cs:55-61 | fails on an empty list (the shuffle throws); otherwise min(n, Count) elements, read at pairwise-distinct shuffled indices |
| ListExtensions.SortByWeightDescending | DotNetExtensions/ListExtensions.cs:74-76 | a permutation of the weighted items in non-increasing weight order |
| ListExtensions.PositiveTotal | DotNetExtensions/ListExtensions.cs:78-84 | the total of the positive weights is never negative |
| ListExtensions.WheelShape | DotNetExtensions/ListExtensions.cs:71-85 | the wheel holds exactly the positive-weight items, each with its cumulative sum; it is empty iff the total is 0; its last sum is the total |
| ListExtensions.WheelIncreasing | DotNetExtensions/ListExtensions.cs:83-84 | cumulative sums strictly increase along the wheel |
| ListExtensions.BuildWheel | DotNetExtensions/ListExtensions.cs:71-85 | the building loop yields the wheel and its total |
| ListExtensions.Spin | DotNetExtensions/ListExtensions.cs:95-103 | the scan stops at the first entry whose cumulative sum reaches the selection |
| ListExtensions.LandingInSegment | DotNetExtensions/ListExtensions.cs:95-103 | a selection inside an entry's segment lands on that entry |
| ListExtensions.SpinAll | DotNetExtensions/ListExtensions.cs:93-105 | n spins, each landing where its draw × total falls on the wheel |
| ListExtensions.RouletteWheelTake | DotNetExtensions/ListExtensions.cs:68-106 | exactly one default when no weight is positive; otherwise a negative n throws ArgumentOutOfRangeException, and any other n gives n positive-weight items, each where its draw lands |
| ListExtensions.RouletteWheelSingle | DotNetExtensions/ListExtensions.cs:63-66 | the first item of a one-spin take: default exactly when no weight is positive |
| ListExtensions.MaxBy | DotNetExtensions/ListExtensions.cs:111-135 | default exactly on an empty sequence, otherwise an element of maximal key, the last among ties |
| ListExtensions.LastMaxUnique | DotNetExtensions/ListExtensions.cs:127 | the last maximal position is unique, so MaxBy's answer is determined |
| Maps.Minus | NEATSpacesLibrary/NEATSpaces/Map.cs:35-38 | componentwise subtraction wherever the differences fit in int (outside that, Wrap32 wraps them) |
| Maps.EqualsObject | NEATSpacesLibrary/NEATSpaces/Map.cs:23-33 | null throws; otherwise true iff the object is a node with equal coordinates |
| Maps.CompareTo | NEATSpacesLibrary/NEATSpaces/Map.cs:69-79 | null throws; otherwise 0 iff the object is the same node, else 1 |
| Maps.CompareToIsSymmetric | NEATSpacesLibrary/NEATSpaces/Map.cs:69-79 | CompareTo gives the same answer both ways, and 1 for distinct nodes |
| Maps.Magnitude | NEATSpacesLibrary/NEATSpaces/Map.cs:61-67 | Math.Abs throws on int.MinValue; otherwise abs(X) + abs(Y) |
| Maps.NodeTextRoundTrip | NEATSpacesLibrary/NEATSpaces/Map.cs:51-59 | the "X,Y" text parses back to the node |
| Maps.NodeTextInjective | NEATSpacesLibrary/NEATSpaces/Map.cs:51-59 | nodes with the same text are equal, so the text-based hash agrees with equality |
| Maps.Map.constructor | NEATSpacesLibrary/NEATSpaces/Map.cs:99-111 | stores the dimensions, endpoints and checkpoints; every cell starts free |
| Maps.NewMap | NEATSpacesLibrary/NEATSpaces/Map.cs:99-111 | a negative width or height makes the allocation throw OverflowException; otherwise the constructor's free map of that size |
| Maps.Map.Get | NEATSpacesLibrary/NEATSpaces/Map.cs:153-163 | the [x, y] getter throws outside the grid and reads the cell inside it |
| Maps.Map.Set | NEATSpacesLibrary/NEATSpaces/Map.cs:153-163 | the [x, y] setter throws outside the grid; inside it writes that cell only |
| Maps.Map.LinearCell | NEATSpacesLibrary/NEATSpaces/Map.cs:165-175 | index i addresses cell (i % width, i / width); it throws outside [0, width·height) |
| Maps.Map.GetLinear | NEATSpacesLibrary/NEATSpaces/Map.cs:165-175 | the linear getter throws exactly where LinearCell does and otherwise reads that cell |
| Maps.Map.LinearCellOfTile | NEATSpacesLibrary/NEATSpaces/Map.cs:165-175 | cell (x, y) is reached by index y·width + x, so writes through one indexer are seen through the other |
| Maps.LinearBounds | NEATSpacesLibrary/NEATSpaces/Map.cs:169 | for an index in range, C#'s remainder and quotient give an in-grid cell |
| Maps.Map.Neighbours | NEATSpacesLibrary/NEATSpaces/Map.cs:121-147 | yields exactly the in-grid 4-neighbours, walls included (only AdjacentEdges drops walls), and reports whether there are any |
| Maps.Map.AdjacentEdges | NEATSpacesLibrary/NEATSpaces/Map.cs:143-145 | the wall filter throws on an out-of-grid node and keeps exactly the free ones |
| Maps.Map.StepsStayInGrid | NEATSpacesLibrary/NEATSpaces/Map.cs:204-209 | a neighbour step stays in the grid and has magnitude 1 |
| Maps.Map.Length | NEATSpacesLibrary/NEATSpaces/Map.cs:256-262 | width × height |
| Maps.Map.Copy | NEATSpacesLibrary/NEATSpaces/Map.cs:264-270 | a fresh map with a fresh array, equal fields and equal cells |
| Maps.Map.DistanceFromStartToEnd | NEATSpacesLibrary/NEATSpaces/Map.cs:177-200 | 0 when the end is unreachable or too few checkpoints are reachable, otherwise the start-to-end distance |
| Maps.Map.ReachableCheckpoints | NEATSpacesLibrary/NEATSpaces/Map.cs:177-200 | the reachable checkpoints are never more than the checkpoints |
| Maps.CreateMap | NEATSpacesLibrary/NEATSpaces/MapConstants.cs:19-22 | the 30 × 30 map from (0, 0) to (29, 29) with its four checkpoints |
| Network.NetworkNeuron.constructor | ComplexCPPNNEAT/CPPNNetworkNeuron.cs:132-137 | a new neuron has no synapses, is not calculating, and has zero previous activation and input |
| Network.NetworkNeuron.SetInput | ComplexCPPNNEAT/CPPNNetworkNeuron.cs:67-70 | stores the input and changes nothing else |
| Network.NetworkNeuron.AddChild | ComplexCPPNNEAT/CPPNNetworkNeuron.cs:139-142 | appends exactly one synapse |
| Network.NetworkNeuron.Reset | ComplexCPPNNEAT/CPPNNetworkNeuron.cs:144-147 | zeroes the previous activation and nothing else |
| Network.NetworkNeuron.Activation | ComplexCPPNNEAT/CPPNNetworkNeuron.cs:44-130 | bias gives 1 and input its stored value; re-entry returns the previous activation; otherwise f of the weighted sum of what each child delivered, in AddChild order (1 from a bias, its input from an input neuron, the previous activation from a neuron already calculating), cached as previous activation with the flag cleared again; on an acyclic (ranked) network with no neuron of lower rank calculating, the value is Eval, the recursive value of the neuron |
| Network.NetworkNeuron.Evaluate | ComplexCPPNNEAT/CPPNNetworkNeuron.cs:108-128 | the computing branch: flag set, weighted sum of the children, f of it, flag cleared and the value cached; on a ranked network the value is Eval |
| Network.NetworkNeuron.SumSynapses | ComplexCPPNNEAT/CPPNNetworkNeuron.cs:115-120 | the sum is the weighted sum of the values the children delivered, in order, and those are their Eval values when no lower neuron is calculating |
| Network.EvalRankFree | ComplexCPPNNEAT/CPPNNetworkNeuron.cs:104-130 | the recursive value of a neuron does not depend on which ranking shows the network acyclic |
| Network.CPPNNetwork.constructor | ComplexCPPNNEAT/CPPNNetwork.cs:67-72 | an empty network without an output neuron |
| Network.CPPNNetwork.AddNeuron | ComplexCPPNNEAT/CPPNNetwork.cs:99-115 | registers the neuron; inputs and hidden neurons are appended to their lists, and an output neuron replaces the output |
| Network.CPPNNetwork.AddLink | ComplexCPPNNEAT/CPPNNetwork.cs:91-97 | adds a synapse exactly when both ends are registered and the target computes; a registered input or bias target throws |
| Network.CPPNNetwork.GetActivation | ComplexCPPNNEAT/CPPNNetwork.cs:74-89 | throws exactly on an input-arity mismatch or a missing output; input[i] reaches the i-th input neuron; the result is the output's activation, which on an acyclic (ranked) network is Eval of the output neuron |
| Network.CPPNNetwork.Reset | ComplexCPPNNEAT/CPPNNetwork.cs:125-133 | zeroes every hidden neuron and the output; fails when there is no output |
| Network.CPPNNetwork.NeuronCount | ComplexCPPNNEAT/CPPNNetwork.cs:117-123 | the size of the neuron set |
| Genes.TypeString | ComplexCPPNNEAT/CPPNNEATNeuronGene.cs:102-121 | one letter per neuron type, read back to that type |
| Genes.NeuronGene.constructor | ComplexCPPNNEAT/CPPNNEATNeuronGene.cs:58-66 | stores number, level, type and function unchanged |
| Genes.NeuronGene.Update | ComplexCPPNNEAT/CPPNNEATNeuronGene.cs:74-94 | builds a fresh phene whose kind matches the gene's type; a computing neuron without a function throws |
| Genes.NeuronTextRoundTrip | ComplexCPPNNEAT/CPPNNEATNeuronGene.cs:123-131 | "T(n)" for bias and input, "T(n, label)" for hidden and output, read back to type, number and label |
| Genes.LinkGene.constructor | ComplexCPPNNEAT/CPPNNEATLinkGene.cs:43-53 | stores number, ends and weight; a new gene is enabled |
| Genes.LinkGene.Copy | ComplexCPPNNEAT/CPPNNEATLinkGene.cs:79-82 | a distinct object with equal fields and the same end neurons |
| Genes.LinkTextEnds | ComplexCPPNNEAT/CPPNNEATLinkGene.cs:84-87 | the link's text is From, " - ", the weight, " -> ", To, and both ends read back |
| Innovations.BaseCPPNNEATGA.constructor | ComplexCPPNNEAT/BaseCPPNNEATGA.cs:71-103 | one bias, the inputs and then the output, with one default link from each non-output to the output numbered 0..numberOfInputs |
| Innovations.BaseCPPNNEATGA.AddDefaultLink | ComplexCPPNNEAT/BaseCPPNNEATGA.cs:89-92 | appends one default neuron and its link to the output |
| Innovations.BaseCPPNNEATGA.AddInputs | ComplexCPPNNEAT/BaseCPPNNEATGA.cs:94-101 | appends numberOfInputs input neurons, each with its default link |
| Innovations.BaseCPPNNEATGA.AddOutput | ComplexCPPNNEAT/BaseCPPNNEATGA.cs:103 | the output comes last, completing the default topology |
| Innovations.BaseCPPNNEATGA.GetEdgeInnovationNumber | ComplexCPPNNEAT/BaseCPPNNEATGA.cs:241-254 | a known pair keeps its number; a new pair gets the counter, which then increments; nothing else changes |
| Innovations.BaseCPPNNEATGA.GetHiddenNeuron | ComplexCPPNNEAT/BaseCPPNNEATGA.cs:256-268 | memoised per number; a new neuron is hidden with the mean level of its edge's ends; an unknown number throws |
| Innovations.BaseCPPNNEATGA.IterationComplete | ComplexCPPNNEAT/BaseCPPNNEATGA.cs:233-239 | clears the edge cache exactly when the period divides the iteration; counters and edge map are kept |
| Innovations.ClearsCacheOnMultiples | ComplexCPPNNEAT/BaseCPPNNEATGA.cs:235 | period 0 never clears; otherwise clearing happens exactly on multiples of the period |
| Innovations.NewCPPNNEATGA | ComplexCPPNNEAT/BaseCPPNNEATGA.cs:60-104 | fewer than one input throws ApplicationException; otherwise the default topology |
| Innovations.NewNEATSpacesGA | NEATSpacesLibrary/CPPNNEAT/CPPNNEATGA.cs:24-60 | zero inputs throw ApplicationException, negative ones ArgumentOutOfRangeException; otherwise the default topology |
| Innovations.InnovationNumberOfNewPair | NEATSpacesTests/CPPNNEAT/CPPNNEATGATests.cs:53-63 | with two inputs the first fresh pair gets 3, and asking again gives 3 |
| Innovations.HiddenNeuronIsShared | NEATSpacesTests/CPPNNEAT/CPPNNEATGATests.cs:113-121 | two requests for the same number return the same neuron object |
| Alignments.DifferenceAnalysis | ComplexCPPNNEAT/CPPNNEATGenome.cs:48-92 | the two-pointer loop computes the recursive alignment Align |
| Alignments.AlignPartitions | ComplexCPPNNEAT/CPPNNEATGenome.cs:62-91 | every gene of each list lands in exactly one of matches, disjoint or excess on its side |
| Alignments.MatchesAgree | ComplexCPPNNEAT/CPPNNEATGenome.cs:74-80 | every match pairs genes of equal innovation number |
| Alignments.AlignSwaps | ComplexCPPNNEAT/CPPNNEATGenome.cs:62-91 | aligning the lists the other way round swaps the two sides |
| Alignments.AlignSelf | ComplexCPPNNEAT/CPPNNEATGenome.cs:74-80 | a list aligned with itself is all matches |
| Alignments.ExcessFollows | ComplexCPPNNEAT/CPPNNEATGenome.cs:64-73 | on sorted lists every first-excess number exceeds every number of the second list |
| Alignments.DisjointFallsInside | ComplexCPPNNEAT/CPPNNEATGenome.cs:81-90 | on sorted lists every first-disjoint gene lies below some number of the second list and is absent from it |
| Alignments.MatchedIffShared | ComplexCPPNNEAT/CPPNNEATGenome.cs:74-80 | on sorted lists a gene is matched iff the other list holds its number |
| Alignments.TableRowOne | NEATSpacesTests/CPPNNEAT/CPPNNEATGenomeTests.cs:54 | {0,1} against {0,2}: 1+2 matches, one disjoint gene first, one excess gene second |
| Alignments.TableRowTwo | NEATSpacesTests/CPPNNEAT/CPPNNEATGenomeTests.cs:55 | equal lists are all matches (also the unordered row {0,2,1}, after LinkGenes sorts it) |
| Alignments.TableRowFour | NEATSpacesTests/CPPNNEAT/CPPNNEATGenomeTests.cs:57 | {0,2} against {0,1,2}: one disjoint gene on the second side |
| Alignments.TableRowFive | NEATSpacesTests/CPPNNEAT/CPPNNEATGenomeTests.cs:58 | {0,1,2} against {0,1}: one excess gene on the first side |
| Alignments.TableRowSix | NEATSpacesTests/CPPNNEAT/CPPNNEATGenomeTests.cs:59 | {0,1,2,4} against {2,4}: two disjoint genes on the first side |
| Crossovers.SourceSide | ComplexCPPNNEAT/CPPNNEATGenome.cs:105-115 | the strictly fitter parent supplies the unmatched genes; a tie is settled by the draw |
| Crossovers.MatchWeight | ComplexCPPNNEAT/CPPNNEATGenome.cs:117-126 | averaging gives the mean of the two weights, otherwise one of them chosen by the draw |
| Crossovers.MatchChild | ComplexCPPNNEAT/CPPNNEATGenome.cs:128-134 | a matched gene keeps its number; blending gives an enabled copy of the first with the crossed weight, choosing gives one parent's gene |
| Crossovers.Offer | ComplexCPPNNEAT/CPPNNEATGeneCollection.cs:164-171 | offering a gene adds its number, stores it only when the number is new, and keeps every other entry |
| Crossovers.Toggle | ComplexCPPNNEAT/CPPNNEATGeneCollection.cs:269-291 | sets one entry's enabled flag and keeps the keys and every other entry |
| Crossovers.BlendStep | ComplexCPPNNEAT/CPPNNEATGenome.cs:128-143 | one loop step of the blending constructor leaves the table of BreedMatch |
| Crossovers.BreedStep | ComplexCPPNNEAT/CPPNNEATGenome.cs:128-143 | one match bred into the child, for either mating |
| Crossovers.ChooseStep | NEATSpacesLibrary/CPPNNEAT/CPPNNEATGenome.cs:115-131 | one loop step of the choosing constructor leaves the table of BreedMatch |
| Crossovers.Union | ComplexCPPNNEAT/CPPNNEATGenome.cs:145-146 | Union holds each element of either list once, and is their concatenation when that has no duplicates |
| Crossovers.InheritStep | ComplexCPPNNEAT/CPPNNEATGenome.cs:145-149 | one unmatched gene is offered to the child |
| Crossovers.Breed | ComplexCPPNNEAT/CPPNNEATGenome.cs:100-150 | the child built from a walk is fresh, valid and holds the table ChildTable of its parents |
| Crossovers.Crossover | ComplexCPPNNEAT/CPPNNEATGenome.cs:100-150 | fails exactly when a parent's sorted view was never filled; otherwise a fresh child with ChildTable and exactly the supplying parent's numbers |
| Crossovers.OffspringGenes | ComplexCPPNNEAT/CPPNNEATGenome.cs:100-150 | the child holds the supplying parent's numbers; matched numbers are the shared ones and carry the bred value; other numbers carry that parent's gene |
| Crossovers.SharedMatched | ComplexCPPNNEAT/CPPNNEATGenome.cs:74-80 | the matched numbers of two tables are exactly the numbers both hold |
| Crossovers.InnerCrossover | NEATSpacesLibrary/CPPNNEAT/CPPNNEATGenome.cs:207-214 | exactly two distinct fresh children, each ChildTable of the parents under its own draws |
| Crossovers.InnerCopy | ComplexCPPNNEAT/CPPNNEATGenome.cs:266-278 | a fresh collection holding a fresh copy of every link gene, with the same table |
| Crossovers.CopyGenes | ComplexCPPNNEAT/CPPNNEATGenome.cs:272-275 | the copy loop offers a copy of every gene in order |
| Crossovers.CopiedTable | ComplexCPPNNEAT/CPPNNEATGenome.cs:266-278 | offering the sorted genes of a table to an empty table rebuilds that table |
| Genomes.LinkGenesAscending | ComplexCPPNNEAT/CPPNNEATGeneCollection.cs:81-100 | the sorted view of a numbered table is strictly ascending, as the alignment requires |
| Genomes.CollectionDifferences | ComplexCPPNNEAT/CPPNNEATGenome.cs:48-60 | fails exactly when a sorted view was never filled; otherwise the alignment of the two sorted views |
| Genomes.Normaliser | NEATSpacesLibrary/CPPNNEAT/CPPNNEATGenome.cs:165-171 | at least 1, either 1 or one of the two counts, and at least both counts once either exceeds the small-genome threshold |
| Genomes.AlignSizes | ComplexCPPNNEAT/CPPNNEATGenome.cs:156-157 | each list's size is its matches plus its disjoint plus its excess genes |
| Genomes.UnmatchedScaled | ComplexCPPNNEAT/CPPNNEATGenome.cs:156-157 | the unmatched genes plus twice the matches account for both sizes, and the unmatched total is at most twice the normaliser (twice the threshold for small genomes) |
| Genomes.FunctionDifference | ComplexCPPNNEAT/CPPNNEATGenome.cs:182-201 | fails exactly when neither genome has a labelled function; otherwise the mean of abs(count₁ − count₂) over the union of labels |
| Genomes.AverageFunctionDifference | ComplexCPPNNEAT/CPPNNEATGenome.cs:182-201 | the dictionary loop computes FunctionDifference |
| Genomes.FunctionDifferenceSymmetric | ComplexCPPNNEAT/CPPNNEATGenome.cs:182-201 | the function difference does not depend on the order of the genomes |
| Genomes.FunctionDifferenceSelf | ComplexCPPNNEAT/CPPNNEATGenome.cs:182-201 | a genome's function difference with itself is 0 |
| Genomes.FunctionAnalysis | NEATSpacesLibrary/CPPNNEAT/CPPNNEATGenome.cs:181-199 | one key per canonical function, counting the neurons that carry it; a non-canonical function throws |
| Genomes.CanonicalDifference | NEATSpacesLibrary/CPPNNEAT/CPPNNEATGenome.cs:156-163 | fails exactly on an empty canonical list or a non-canonical function |
| Genomes.CanonicalAverage | NEATSpacesLibrary/CPPNNEAT/CPPNNEATGenome.cs:156-163 | the loop over the canonical list computes CanonicalDifference |
| Genomes.Distance | ComplexCPPNNEAT/CPPNNEATGenome.cs:152-180 | the distance fails exactly when there are no matches or the function term fails |
| Genomes.CompatibilityDistance | ComplexCPPNNEAT/CPPNNEATGenome.cs:152-180 | a never-filled sorted view throws; otherwise Distance of the alignment of the two genomes |
| Genomes.DistanceSymmetric | ComplexCPPNNEAT/CPPNNEATGenome.cs:152-180 | the distance does not depend on the order of the genomes |
| Genomes.DistanceToSelf | ComplexCPPNNEAT/CPPNNEATGenome.cs:152-180 | a non-empty genome's distance to itself is 0 whenever the function term is defined |
| Genomes.SplitJoin | ComplexCPPNNEAT/CPPNNEATGenome.cs:261-264 | lines without carriage returns are read back from their "\r\n" join |
| Genomes.GenomeText | ComplexCPPNNEAT/CPPNNEATGenome.cs:261-264 | the valid links' texts in innovation order, one per line, and they split back apart |
| GeneCollections.GeneCollection.constructor | ComplexCPPNNEAT/CPPNNEATGeneCollection.cs:119-126 | an empty collection whose sorted view was never filled |
| GeneCollections.SortedLinksAscending | ComplexCPPNNEAT/CPPNNEATGeneCollection.cs:81-100 | the sorted view lists the table's genes in strictly ascending number order |
| GeneCollections.GeneCollection.LinkGenes | ComplexCPPNNEAT/CPPNNEATGeneCollection.cs:81-100 | the table's genes in number order, refreshing the cache; a never-filled view throws |
| GeneCollections.GeneCollection.ValidLinks | ComplexCPPNNEAT/CPPNNEATGeneCollection.cs:104-111 | the enabled links of the sorted view with no orphaned end |
| GeneCollections.GeneCollection.AddNeuronGene | ComplexCPPNNEAT/CPPNNEATGeneCollection.cs:191-218 | adds the neuron and every proper new candidate connection to or from it |
| GeneCollections.WithLinkKeepsProper | ComplexCPPNNEAT/CPPNNEATGeneCollection.cs:197-214 | candidates never target input or bias neurons and, feed-forward only, always climb in level |
| GeneCollections.WithLinkCandidates | ComplexCPPNNEAT/CPPNNEATGeneCollection.cs:173-179 | after an add the old candidates stay, new proper pairs join, and an enabled link is no longer a candidate |
| GeneCollections.GeneCollection.TryAddLinkGene | ComplexCPPNNEAT/CPPNNEATGeneCollection.cs:164-189 | false with no change when an enabled gene holds the number; otherwise stored, ends added, candidates updated and cache expired |
| GeneCollections.GeneCollection.AddToTable | ComplexCPPNNEAT/CPPNNEATGeneCollection.cs:164-189 | stores the gene under its number and adds its ends |
| GeneCollections.GeneCollection.HasBeenUnOrphaned | ComplexCPPNNEAT/CPPNNEATGeneCollection.cs:144-162 | a revived neuron leaves the orphan set and revival propagates along valid links |
| GeneCollections.GeneCollection.ReviveChildren | ComplexCPPNNEAT/CPPNNEATGeneCollection.cs:144-162 | every child of a live neuron ends up revived |
| GeneCollections.GeneCollection.HasBeenOrphaned | ComplexCPPNNEAT/CPPNNEATGeneCollection.cs:247-267 | corrected: a hidden neuron with no other valid link is orphaned and orphaning propagates until closed |
| GeneCollections.GeneCollection.Orphan | ComplexCPPNNEAT/CPPNNEATGeneCollection.cs:247-267 | orphans the neuron and closes the orphan set over its children |
| GeneCollections.GeneCollection.OrphanChildren | ComplexCPPNNEAT/CPPNNEATGeneCollection.cs:247-267 | every child of an orphaned neuron is settled |
| GeneCollections.GeneCollection.HasBeenOrphanedAsWritten | ComplexCPPNNEAT/CPPNNEATGeneCollection.cs:256-265 | as written: the neuron is orphaned, but the outgoing list is read after the neuron joins the set and is empty, so nothing propagates |
| GeneCollections.OrphaningStopsEarly | ComplexCPPNNEAT/CPPNNEATGeneCollection.cs:256-265 | on In→H1→H2→Out with In→H1 disabled, H1 is orphaned but the set {H1} is not closed |
| GeneCollections.GeneCollection.DisableLinkGene | ComplexCPPNNEAT/CPPNNEATGeneCollection.cs:269-279 | corrected: the link is disabled and becomes a candidate again; orphaning, as the corrected HasBeenOrphaned propagates it, runs downstream, then upstream |
| GeneCollections.GeneCollection.EnableLinkGene | ComplexCPPNNEAT/CPPNNEATGeneCollection.cs:281-291 | the link is enabled and stops being a candidate; revival runs downstream, then upstream |
| GeneCollections.GeneCollection.DisableLinkGeneByNumber | ComplexCPPNNEAT/CPPNNEATGeneCollection.cs:293-296 | an unknown number throws KeyNotFoundException with no change; otherwise that link is disabled |
| GeneCollections.GeneCollection.EnableLinkGeneByNumber | ComplexCPPNNEAT/CPPNNEATGeneCollection.cs:298-301 | an unknown number throws KeyNotFoundException with no change; otherwise that link is enabled |
| GeneCollections.GeneCollection.GetRandomEnabledLinkGene | ComplexCPPNNEAT/CPPNNEATGeneCollection.cs:323-326 | a never-filled sorted view throws; otherwise RandomSingle over the enabled links, none exactly when no link is enabled |
| GeneCollections.GeneCollection.TryDisableLinkGene | ComplexCPPNNEAT/CPPNNEATGeneCollection.cs:353-364 | a never-filled sorted view throws; false exactly when no link is enabled; true disables one enabled link and makes it a candidate again |
| GeneCollections.DefaultLinksAllowed | ComplexCPPNNEAT/CPPNNEATGeneCollection.cs:220-229 | a link from level 0 to the output passes both checks of TryCreateLinkGene |
| GeneCollections.GeneCollection.TryCreateLinkGene | ComplexCPPNNEAT/CPPNNEATGeneCollection.cs:220-233 | throws exactly for a level-0 target or, feed-forward only, a non-climbing link; otherwise the registry numbers the pair and the gene is offered |
| GeneCollections.GeneCollection.TryCreateRandomLinkGene | ComplexCPPNNEAT/CPPNNEATGeneCollection.cs:341-351 | false when there is no candidate; otherwise a link for the drawn candidate |
| GeneCollections.GeneCollection.CreateNeuronGene | ComplexCPPNNEAT/CPPNNEATGeneCollection.cs:235-245 | splitting disables the link and adds From→new with weight 1 and new→To with the old weight |
| GeneCollections.GeneCollection.AddSplitLinks | ComplexCPPNNEAT/CPPNNEATGeneCollection.cs:235-245 | both halves are numbered by the registry and present, enabled, in the table |
| GeneCollections.GeneCollection.AddNumberedLink | ComplexCPPNNEAT/CPPNNEATGeneCollection.cs:235-245 | one registry-numbered link is offered and ends up enabled |
| GeneCollections.GeneCollection.TryCreateNeuronGene | ComplexCPPNNEAT/CPPNNEATGeneCollection.cs:328-339 | false when no link is enabled; a split disables one enabled link and only adds numbers |
| GeneCollections.GeneCollection.Initialise | ComplexCPPNNEAT/CPPNNEATGeneCollection.cs:128-142 | one enabled copy of each default link under its number, with the default neurons and no orphans |
| GeneCollections.GeneCollection.AddDefaultLinks | ComplexCPPNNEAT/CPPNNEATGeneCollection.cs:128-142 | the loop adds a fresh copy of every default link with its weight |
| GeneticAlgorithms.Genome.constructor | GeneticAlgorithms/SpeciatedGenome.cs:15-17 | a new genome with no species, no phenome, and not expired |
| GeneticAlgorithms.Genome.Score | CPPNNEAT/GeneticAlgorithms/Genome.cs:9-31 | throws ApplicationException without a parent or while the phenome is expired; otherwise the stored score |
| GeneticAlgorithms.Genome.Phenome | CPPNNEAT/GeneticAlgorithms/Genome.cs:47-69 | guarded as Score is, otherwise the stored phenome |
| GeneticAlgorithms.Genome.UpdatePhenome | CPPNNEAT/GeneticAlgorithms/Genome.cs:85-89 | stores the expressed phenome and clears the expired flag |
| GeneticAlgorithms.Genome.Update | GeneticAlgorithms/SpeciatedGenome.cs:21-29 | sets expired, invalidates the species and the parent GA; without a parent it throws NullReferenceException |
| GeneticAlgorithms.Genome.Mutate | CPPNNEAT/GeneticAlgorithms/Genome.cs:102-106 | the mutated genes followed by Update |
| GeneticAlgorithms.Genome.Copy | CPPNNEAT/GeneticAlgorithms/Genome.cs:110-116 | a copy with equal genes that is already marked expired |
| GeneticAlgorithms.Genome.Crossover | CPPNNEAT/GeneticAlgorithms/Genome.cs:97-100 | a fresh genome of the same GA, holding the bred genes, with no species, left stale by the genes its constructor adds |
| GeneticAlgorithms.Genome.Initialise | ComplexCPPNNEAT/CPPNNEATGenome.cs:256-259 | the genes are filled, the genome is marked expired and its species and GA invalidated; without a GA it throws |
| GeneticAlgorithms.Species.constructor | GeneticAlgorithms/Species.cs:95-106 | members = [representative], may breed, previous score = the representative's score |
| GeneticAlgorithms.Species.Update | GeneticAlgorithms/Species.cs:122-126 | invalidates both caches |
| GeneticAlgorithms.Species.Count | GeneticAlgorithms/Species.cs:134-140 | the number of members |
| GeneticAlgorithms.Species.Add | GeneticAlgorithms/Species.cs:113-120 | appends the genome and makes it the representative |
| GeneticAlgorithms.Species.Remove | GeneticAlgorithms/Species.cs:128-132 | removes the first occurrence only, one fewer member when present |
| GeneticAlgorithms.Species.Clear | GeneticAlgorithms/Species.cs:142-146 | empties the members and invalidates the caches |
| GeneticAlgorithms.Species.Members | GeneticAlgorithms/Species.cs:78-93 | a stale list is refreshed and sorted by score, descending; an uninitialised GA throws |
| GeneticAlgorithms.Species.Sort | GeneticAlgorithms/Species.cs:86-87 | a permutation of the members by descending score; an unscored member aborts the sort unchanged |
| GeneticAlgorithms.Species.Best | GeneticAlgorithms/Species.cs:65-71 | the first of the sorted members, a maximum-score member; an empty species throws |
| GeneticAlgorithms.Species.AverageFitness | GeneticAlgorithms/Species.cs:49-63 | the mean adjusted score of the members, cached until invalidated |
| GeneticAlgorithms.SortedByScoreRanks | GeneticAlgorithms/Species.cs:86-87 | sorting by score keeps the members and orders them by non-increasing score |
| GeneticAlgorithms.AdjustedScores | GeneticAlgorithms/SpeciatedGenome.cs:5-11 | every member's adjusted score, or the first failure |
| GeneticAlgorithms.ScoresOf | GeneticAlgorithms/BaseGA.cs:149 | the population's scores, throwing ApplicationException on an expired genome |
| GeneticAlgorithms.RemoveFirstCounts | GeneticAlgorithms/Species.cs:128-132 | removing the first occurrence takes exactly one copy out of the multiset |
| GeneticAlgorithms.RemoveFirstAt | GeneticAlgorithms/BaseSpeciatedGA.cs:103-106 | removing from a known position leaves the rest in order |
| GeneticAlgorithms.Placement | GeneticAlgorithms/BaseSpeciatedGA.cs:110-128 | the first species the genome belongs to, none if there is none, and a distance failure propagates |
| GeneticAlgorithms.StagnationCounts | GeneticAlgorithms/BaseSpeciatedGA.cs:85-101 | a species stops breeding exactly once its best has failed to improve threshold times in a row |
| GeneticAlgorithms.SurvivorsAreTheNonEmpty | GeneticAlgorithms/BaseSpeciatedGA.cs:85-107 | the surviving species are exactly the non-empty ones, in order |
| GeneticAlgorithms.Breeders | GeneticAlgorithms/BaseSpeciatedGA.cs:130-134 | a prefix of the sorted members of length ceil(count × threshold), clamped |
| GeneticAlgorithms.BreedersShare | GeneticAlgorithms/BaseSpeciatedGA.cs:130-134 | for a threshold in [0, 1] the breeders are at least the share and at most all |
| GeneticAlgorithms.Crowded | GeneticAlgorithms/BaseSpeciatedGA.cs:158-163 | only species with more than 5 members give a champion |
| GeneticAlgorithms.CrowdedExactly | GeneticAlgorithms/BaseSpeciatedGA.cs:158-163 | every such species gives one, in ascending order |
| GeneticAlgorithms.GA.constructor | GeneticAlgorithms/BaseSpeciatedGA.cs:63-73 | stores the parameters; no population, no species, generation 0 |
| GeneticAlgorithms.GA.ClearSpecies | GeneticAlgorithms/BaseSpeciatedGA.cs:75-81 | empties every species but keeps the species list |
| GeneticAlgorithms.GA.IterationComplete | GeneticAlgorithms/BaseSpeciatedGA.cs:83-108 | the species become the surviving non-empty ones, with stagnation bookkeeping advanced for breeding species |
| GeneticAlgorithms.GA.VisitAll | GeneticAlgorithms/BaseSpeciatedGA.cs:85-107 | the species loop keeps the visiting invariant to its end |
| GeneticAlgorithms.GA.Step | GeneticAlgorithms/BaseSpeciatedGA.cs:85-107 | one species visited keeps the visiting invariant |
| GeneticAlgorithms.GA.Visit | GeneticAlgorithms/BaseSpeciatedGA.cs:87-106 | a breeding species is reviewed; an empty one is discarded |
| GeneticAlgorithms.GA.Discard | GeneticAlgorithms/BaseSpeciatedGA.cs:103-106 | removes that species and keeps the others in order |
| GeneticAlgorithms.GA.Review | GeneticAlgorithms/BaseSpeciatedGA.cs:87-101 | the bookkeeping advances by the species' best score |
| GeneticAlgorithms.GA.Failed | GeneticAlgorithms/BaseSpeciatedGA.cs:54-61 | false exactly when some breeding species has a positive average fitness |
| GeneticAlgorithms.GA.Champions | GeneticAlgorithms/BaseSpeciatedGA.cs:156-169 | one detached champion copy per crowded species, and the total fitness |
| GeneticAlgorithms.GA.ChampionStep | GeneticAlgorithms/BaseSpeciatedGA.cs:158-169 | one species' champion and fitness added |
| GeneticAlgorithms.GA.RetainStep | GeneticAlgorithms/BaseSpeciatedGA.cs:160-163 | a crowded species contributes its champion copy |
| GeneticAlgorithms.GA.TallyStep | GeneticAlgorithms/BaseSpeciatedGA.cs:165-168 | a breeding species adds its average fitness to the total |
| GeneticAlgorithms.GA.Champion | GeneticAlgorithms/BaseSpeciatedGA.cs:160-163 | a copy of the best member exactly when the species has more than 5 members |
| GeneticAlgorithms.GA.PairUp | GeneticAlgorithms/BaseSpeciatedGA.cs:190-210 | adds exactly as many parent pairs as the amount allows before the selection is full; each first parent is a breeder (null exactly when there are none), each partner a breeder or a genome of the population |
| GeneticAlgorithms.GA.AddMutants | GeneticAlgorithms/BaseSpeciatedGA.cs:142-154 | adds exactly as many mutants as the amount allows before the selection is full, each a fresh copy of a breeder's genes; no breeders with work to do throws NullReferenceException |
| GeneticAlgorithms.GA.PerformGenerationalSelection | GeneticAlgorithms/BaseSpeciatedGA.cs:136-216 | one champion per crowded species, and never more than the population once the champions fit |
| GeneticAlgorithms.GA.BreedAll | GeneticAlgorithms/BaseSpeciatedGA.cs:171-213 | the breeding loop keeps the size bound |
| GeneticAlgorithms.GA.BreedStep | GeneticAlgorithms/BaseSpeciatedGA.cs:173-213 | one species bred within the bound |
| GeneticAlgorithms.AmountsSplit | GeneticAlgorithms/BaseSpeciatedGA.cs:186-188 | for a share in int range and a rate in [0, 1], floor(limit × rate) pairs and ceil(limit × (1 − rate)) mutants are both non-negative and add up to the share |
| GeneticAlgorithms.BreedingLimitWithin | GeneticAlgorithms/BaseSpeciatedGA.cs:156-182 | a species whose average is part of a positive total gets a share between 0 and what is left after the champions |
| GeneticAlgorithms.GA.BreedSpecies | GeneticAlgorithms/BaseSpeciatedGA.cs:173-213 | the species' share is BreedingLimit of its average fitness (the cached one when the cache is fresh); then floor(share × rate) pairs, capped by the room left, then ceil(share × (1 − rate)) mutants, capped likewise; pairs come from Breeders of the sorted members, mutants copy them |
| GeneticAlgorithms.GA.Reproduce | GeneticAlgorithms/BaseSpeciatedGA.cs:184-212 | pairs first, then mutants, drawn from Breeders of the sorted members, in the counts CrossoverAmount and MutationAmount of the share, each capped by the room; a negative count throws ArgumentOutOfRangeException |
| GeneticAlgorithms.GA.Allot | GeneticAlgorithms/BaseSpeciatedGA.cs:186-212 | for given breeders and counts: exactly Room(...) pairs, then exactly Room(...) mutants; a negative count throws ArgumentOutOfRangeException |
| GeneticAlgorithms.GA.FindSpecies | GeneticAlgorithms/BaseSpeciatedGA.cs:113-122 | the loop finds Placement |
| GeneticAlgorithms.GA.Speciate | GeneticAlgorithms/BaseSpeciatedGA.cs:110-128 | the genome joins its placement or founds a new species |
| GeneticAlgorithms.GA.Join | GeneticAlgorithms/BaseSpeciatedGA.cs:115-120 | appended to that species as its representative |
| GeneticAlgorithms.GA.Found | GeneticAlgorithms/BaseSpeciatedGA.cs:124-127 | a new species of just that genome is appended |
| GeneticAlgorithms.GA.Update | GeneticAlgorithms/BaseGA.cs:289-293 | invalidates the best and average caches |
| GeneticAlgorithms.GA.Initialise | GeneticAlgorithms/BaseGA.cs:192-205 | a negative population size throws ArgumentOutOfRangeException; otherwise exactly populationSize created genomes, generation 0 |
| GeneticAlgorithms.GA.Create | GeneticAlgorithms/BaseGA.cs:198-201 | one created genome appended |
| GeneticAlgorithms.GA.Best | GeneticAlgorithms/BaseGA.cs:142-156 | a stale cache is refreshed with MaxBy of the scores |
| GeneticAlgorithms.GA.Rebest | GeneticAlgorithms/BaseGA.cs:146-152 | refreshes the population, then picks the last best |
| GeneticAlgorithms.GA.PickBest | GeneticAlgorithms/BaseGA.cs:148-151 | MaxBy of the scores, none for an empty population |
| GeneticAlgorithms.GA.AverageScore | GeneticAlgorithms/BaseGA.cs:163-182 | 0 when no breeding species has a positive average fitness; otherwise the refreshed cached average |
| GeneticAlgorithms.GA.Reaverage | GeneticAlgorithms/BaseGA.cs:172-178 | the mean of the refreshed scores, stored in the cache |
| GeneticAlgorithms.GA.GenerationalIterate | GeneticAlgorithms/BaseGA.cs:218-271 | an uninitialised GA throws NullReferenceException; Failed changes nothing; otherwise champions with their genes, the j-th copy mutated by mutation(j) and a child bred from each pair replace the population, and the generation count goes up by 1 |
| GeneticAlgorithms.GA.Regenerate | GeneticAlgorithms/BaseGA.cs:230-270 | the selection and the population that replaces the old one: champions with their genes, the j-th copy mutated by mutation(j), then a child bred from each pair; the generation count goes up by 1 |
| GeneticAlgorithms.GA.NextGeneration | GeneticAlgorithms/BaseGA.cs:237-270 | the selection replaces the population as Replace states it, and the generation count goes up by 1 |
| GeneticAlgorithms.GA.Renew | GeneticAlgorithms/BaseGA.cs:237-253 | retained, then mutated genomes |
| GeneticAlgorithms.GA.Replace | GeneticAlgorithms/BaseGA.cs:237-270 | retained, then mutated, then one child per pair, in that order; the champions keep their genes, the j-th copy gets mutation(j) of its genes, each child is bred from its pair |
| GeneticAlgorithms.GA.Conclude | GeneticAlgorithms/BaseGA.cs:255-270 | the children follow the kept prefix |
| GeneticAlgorithms.GA.Complete | GeneticAlgorithms/BaseGA.cs:263-268 | the iteration-complete handlers run |
| GeneticAlgorithms.GA.AdoptAll | GeneticAlgorithms/BaseGA.cs:244-253 | the genomes are appended in order and belong to this GA |
| GeneticAlgorithms.GA.AdoptChildren | GeneticAlgorithms/BaseGA.cs:255-261 | one child per pair appended |
| GeneticAlgorithms.GA.AdoptChild | GeneticAlgorithms/BaseGA.cs:257-260 | one child appended |
| GeneticAlgorithms.GA.Adopt | GeneticAlgorithms/BaseGA.cs:244-253 | the genome joins the population, mutated when asked, and is scored |
| GeneticAlgorithms.GA.AddGenome | GeneticAlgorithms/BaseGA.cs:207-216 | appended, owned, scored if stale, then speciated |
| GeneticAlgorithms.GA.Enlist | GeneticAlgorithms/BaseGA.cs:209-210 | appended and owned, scored if stale |
| GeneticAlgorithms.GA.UpdateGenome | GeneticAlgorithms/BaseGA.cs:303-312 | only an expired genome is rescored, and that invalidates both caches |
| GeneticAlgorithms.GA.UpdateGenomes | GeneticAlgorithms/BaseGA.cs:295-301 | throws when never initialised; otherwise every genome is refreshed |
| GeneticAlgorithms.GA.BestOf | GeneticAlgorithms/Species.cs:65-71 | the species' best, as Species.Best |
| GeneticAlgorithms.GA.AverageOf | GeneticAlgorithms/Species.cs:49-63 | the species' average fitness, as Species.AverageFitness |
| GeneticAlgorithms.GA.MembersOf | GeneticAlgorithms/Species.cs:78-93 | the species' sorted members, as Species.Members |
| GeneticAlgorithms.GA.CopyOf | CPPNNEAT/GeneticAlgorithms/Genome.cs:110-116 | a member's copy, as Genome.Copy |
| GeneticAlgorithms.GA.Reshape | CPPNNEAT/GeneticAlgorithms/Genome.cs:102-106 | a member mutated, as Genome.Mutate |

## Left out

- Floating-point and complex arithmetic: weights, activations and scores are exact reals and
  complex numbers over reals. Rounding, NaN and infinities are not modelled. Activation functions
  are labelled Dafny functions rather than closures, and the weighted compatibility sum,
  `EuclideanDistance`, weight perturbation and `GetRandomWeight` appear only as opaque inputs.
- The random number generator and its lock: each draw is a parameter in [0, 1).
- The concrete genome's `InnerMutate` and `InnerCrossover`, the phenome builder and the fitness
  function are parameters of the GA (`mutation`, `crossing`, `express`, `scoreFunction`).
- .NET events: the handlers are direct calls. `IterationBegin` and `ForceUpdateGenomes`
  (GeneticAlgorithms/BaseGA.cs:278-287) are not modelled.
- `List.Sort` is unstable; the model's sort is one fixed stable order, so ties among equal scores
  may come out differently.
- The gene collection's `Parent.Update()` notifications: the genome's staleness is modelled on
  `GeneticAlgorithms.Genome` on its own.
- `GeneCollection.Update` and `GetNetwork` (the phenome build, ComplexCPPNNEAT/CPPNNEATGeneCollection.cs:303-321)
  are not modelled; `Network` models the network the build produces.
- The QuickGraph A* search behind `Map.DistanceBetween` is a distance oracle.
- Concurrency (`Parallel.ForEach`, `AsParallel`, threads), the forms and panels, file output and
  the console programs.
- The NEATSpacesLibrary GA layer (its stub `Genome`, the duplicated `GenomeEventArgs`, the
  collection that never initialises its links), and the `CPPNNEAT/NEAT` genome: these do not
  build a coherent program.
- Interfaces, the Mandelbrot genome and GA, serialization helpers and constant classes.
- GeneticAlgorithms.GA.AverageScore: states the result only when the getter succeeds, and with a
  fresh cache the cached value; the mean itself is stated by `GA.Reaverage`.
- GeneticAlgorithms.GA.Best: states the result only when the cache was stale; a fresh cache
  returns the stored best.
- GeneticAlgorithms.GA.Review: reads the best genome's score once. The source reads
  `species.Best.Score` a second time, which returns the same cached value.
- MathExtensions.AbsMod: works on unbounded integers. The source's overflows are not modelled:
  `int.MinValue % -1` throws, and `n + b` can wrap.
- GeneticAlgorithms.Species.BelongsTo: it has no contract of its own; `GeneticAlgorithms.Placement`
  states what it decides.
- Maps.Map.constructor: takes `nat` sizes; `Maps.NewMap` takes the source's `int` sizes and
  models the OverflowException a negative one raises.
- Maps.Magnitude: states abs(X) + abs(Y) only where the sum fits in `int`; the source's overflow
  there is not modelled.
- GeneCollections.GeneCollection.DisableLinkGene: uses the corrected `HasBeenOrphaned` (see
  Findings). With the source's version, orphaning stops at the first neuron, as
  `HasBeenOrphanedAsWritten` shows; that variant is not threaded through `DisableLinkGene` and
  its callers.
- GeneticAlgorithms.Genome.Crossover: the child is always stale. A child of two parents with no
  link genes, which the source leaves fresh, is not covered. The GA invalidation each added
  gene triggers is not modelled either; the caches are dropped when the children join.

## Findings

| source | as written | input that shows it | evidently intended | confidence | as-written member | corrected member |
|---|---|---|---|---|---|---|
| ComplexCPPNNEAT/CPPNNEATGeneCollection.cs:256-265 | `HasBeenOrphaned` adds the neuron to `orphanedNeurons` before the lazy `ValidLinks` query over its outgoing links is evaluated. `ValidLinks` excludes links touching orphaned neurons, so the list is always empty and orphaning never goes past the first neuron | chain In→H1→H2→Out with H1, H2 hidden; disable In→H1: H1 is orphaned, H2 stays live although its only input now comes from an orphan | orphaning propagates along the orphan's valid outgoing links, so H2 is orphaned too | not executed | GeneCollections.GeneCollection.HasBeenOrphanedAsWritten, GeneCollections.OrphaningStopsEarly | GeneCollections.GeneCollection.HasBeenOrphaned |
