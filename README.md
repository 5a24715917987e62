# pypeline core in Dafny

This project models the core of pypeline. pypeline is a dependency-graph task runner for
bioinformatics pipelines. Each unit of work is a node. A node declares its input and output
files and its subnodes and dependencies. The node graph computes each node's state, from DONE
up to ERROR. The pipeline then starts the runnable nodes that fit in a thread budget. Nodes run
command sets, and an option builder assembles each command's call vector.

The model covers the following parts:

- **Nodes and graph.** The node lifecycle (`pypeline/node.py`), the node-graph state machine
  (`pypeline/nodegraph.py`) and pipeline dispatch (`pypeline/pipeline.py`).
- **Commands.** Command sets (`pypeline/atomicset.py`), the command builder
  (`pypeline/atomiccmd/builder.py`) and the command pretty-printer (`pypeline/atomicpp.py`).
- **Common helpers.** Path and file helpers (`fileutils.py`), collection helpers
  (`utilities.py`), version checks (`versions.py`) and makefile validators (`makefile.py`).
- **Formats.** The alignment and PHYLIP formats (`common/formats/msa.py`, `phylip.py`).
- **Format nodes.** The partition and singleton-filter nodes (`pypeline/nodes/formats.py`,
  `pypeline/nodes/sequences.py`) and the PAML writer of the phylo pipeline.
- **Makefiles and targets.** Makefile normalisation for the BAM and phylo pipelines, and the BAM
  pipeline's graph walk and target selection.
- **VCF tools.** The VCF tools' sliding buffer and window assignment.

The project is organised as follows:

- **One module per source file.** Each Dafny module corresponds to one source file.
- **Shared modules.** `PyErrors` names the Python exception kinds and the `Result`/`Outcome`
  wrappers. `PyValues` models dynamic Python values. `PyText` covers the `str` operations the
  source relies on: `split`, `strip`, `repr`, `%i` and `sorted`. `Seqs` holds sequence helpers.
- **FASTA.** `Fasta` models FASTA reading and writing as the FASTA tests describe it.
  `pypeline/common/formats/fasta.py` itself is not part of this model.
- **Side effects as inputs.** The filesystem is a map from path to entry: whether it is a
  directory, and its mtime. A process is its return code. File contents are lines.
- **Stateful objects are classes.** Code that mutates objects in place is modelled as a
  class with `modifies` clauses. This covers `NodeGraph`, the command sets, the builder, the
  pipeline, `VCFBuffer` and `VCFWindow`. Each class method is proved against a specification
  function.
- **Pure code is functions.** Pure code becomes functions, with lemmas about them.

## Model

| member | source | states |
|---|---|---|
| Fasta.ParseHeader | tests/unit/common_tests/formats_tests/fasta_test.py:105-117 | the header text splits at the first space into a name without spaces and an optional meta; the two rejoin to the header |
| Fasta.ReadRecord | tests/unit/common_tests/formats_tests/fasta_test.py:120-160 | a record fails with FASTAError exactly when the line is not a header, the name is empty or no sequence line follows; otherwise it consumes the header and its sequence lines |
| Fasta.ParseFasta | tests/unit/common_tests/formats_tests/fasta_test.py:102-160 | no lines give no records; a parsed file starts with a header; every record has a non-empty name without spaces; errors are FASTAError |
| Fasta.ReadStream | pypeline/common/formats/msa.py:77 | read record by record, the parser raises exactly when a malformed record follows the ones read, and otherwise yields all of them |
| Fasta.FastaLines | tests/unit/common_tests/formats_tests/fasta_test.py:52-100 | a record is written as ">name" followed by lines of at most 60 characters, all full but the last, that concatenate to the sequence |
| Fasta.ParseFastaRoundTrip | tests/unit/common_tests/formats_tests/fasta_test.py:76-117 | parsing what the writer printed gives back the same records, when every record has a name and a sequence |
| Fasta.ReadRecordLines | tests/unit/common_tests/formats_tests/fasta_test.py:105-117 | reading a written record takes back exactly that record's lines |
| Fasta.EmptySequenceNotReadBack | tests/unit/common_tests/formats_tests/fasta_test.py:120-136 | a record with an empty sequence is written as a bare header, which the parser rejects with FASTAError |
| Utilities.SafeCoerceToTuple | pypeline/common/utilities.py:30-49 | lists and tuples become their items; every other value becomes a one-element tuple |
| Utilities.SafeCoerceToFrozenset | pypeline/common/utilities.py:30-49 | succeeds exactly when every coerced element is hashable, and then holds exactly those elements; otherwise TypeError |
| Utilities.SafeCoerceToTupleIdempotent | pypeline/common/utilities.py:30-49 | coercing an already coerced tuple changes nothing |
| Utilities.SafeCoerceWrapsStringsAndDicts | pypeline/common/utilities.py:30-49 | a string or a dict is wrapped as one element; the frozenset of a dict raises TypeError |
| Utilities.TryCastInt | pypeline/common/utilities.py:55-59 | the cast integer when `int(v)` succeeds, otherwise the value itself |
| Utilities.TryCastIntOfDecimal | pypeline/common/utilities.py:55-59 | a decimal string is cast to the number it spells |
| Utilities.SetIn | pypeline/common/utilities.py:66-87 | no keys raises ValueError; otherwise the first key is added and every other top-level entry is kept |
| Utilities.GetIn | pypeline/common/utilities.py:90-106 | no keys raises IndexError; a missing key on the path gives the default; one key is a plain lookup |
| Utilities.GetInAfterSetIn | pypeline/common/utilities.py:66-106 | after `set_in(d, keys, v)`, `get_in(d, keys)` is `v` |
| Utilities.SetInFrame | pypeline/common/utilities.py:66-106 | `set_in` leaves every path that starts with another key unchanged |
| Utilities.SetInSucceedsOnDicts | pypeline/common/utilities.py:66-87 | over nested dicts, `set_in` with keys succeeds, creating the missing intermediate dicts |
| Utilities.EmptyDictGetIn | pypeline/common/utilities.py:90-106 | every lookup in an empty dict yields the default |
| Utilities.SplitBefore | pypeline/common/utilities.py:109-121 | the groups are non-empty and concatenate to the input; a pred-true element occurs only first in a group, and every group but the first starts with one |
| Utilities.IsStrictlyIncreasing | pypeline/common/utilities.py:124-129 | true exactly when every earlier element is smaller than every later one |
| Utilities.Grouper | pypeline/common/utilities.py:130-133 | every group has exactly `size` elements; they concatenate to the input followed by fewer than `size` fill values |
| Utilities.GroupByPred | pypeline/common/utilities.py:136-147 | returns the matching and the non-matching elements, each in input order |
| Utilities.GroupByPredPartitions | pypeline/common/utilities.py:136-147 | the two lists together are a permutation of the input, and each holds only its side of the predicate |
| Utilities.Fragment | pypeline/common/utilities.py:150-152 | size 0 raises ValueError and a negative size gives no slices; for a positive size the slices are non-empty, at most `size` long, all but the last exactly `size` long, and concatenate to the input |
| Utilities.Cumsum | pypeline/common/utilities.py:155-160 | the k-th value is `initial` plus the sum of the first k+1 items |
| FileUtils.AddPostfix | pypeline/common/fileutils.py:34-37 | the postfix goes between the stem and the extension |
| FileUtils.AddPostfixKeepsExtension | pypeline/common/fileutils.py:34-37 | the result has the same extension, and its stem is the old stem plus the postfix |
| FileUtils.SwapExt | pypeline/common/fileutils.py:40-51 | "" or "." strips the extension; otherwise the new extension replaces it, with a "." added if missing |
| FileUtils.SwapExtReplacesExtension | pypeline/common/fileutils.py:40-51 | splitting the swapped name gives the old stem and the new extension |
| FileUtils.RerootPath | pypeline/common/fileutils.py:54-56 | the root joined with the file's basename |
| FileUtils.RerootKeepsBasename | pypeline/common/fileutils.py:54-56 | rerooting keeps the basename |
| FileUtils.Disk.CreateTempDir | pypeline/common/fileutils.py:59-69 | tries the names in turn: every name before the one it stops at is already taken (`make_dirs` answers False); it returns the first name `make_dirs` creates, which is new, lies under the root and leaves every existing entry unchanged, or raises the error `make_dirs` raised for that name with nothing changed; failures are ValueError or OSError |
| FileUtils.MissingFiles | pypeline/common/fileutils.py:72-81 | exactly the given files that do not exist |
| FileUtils.ModifiedAfter | pypeline/common/fileutils.py:84-94 | fails when either set is empty or names a missing file; otherwise compares the newest younger with the oldest older mtime |
| FileUtils.ModifiedAfterSomePair | pypeline/common/fileutils.py:84-94 | true exactly when some younger file is strictly newer than some older file, so equal times give false |
| FileUtils.MissingExecutables | pypeline/common/fileutils.py:97-121 | exactly the given names that are neither an executable path nor found on the search path |
| FileUtils.MakeDirsOutcome | pypeline/common/fileutils.py:124-144 | True means the directory and all its ancestors now exist as directories, and nothing existing changed; False means it already existed; on False or an error nothing changed |
| FileUtils.MakeDirsTwice | pypeline/common/fileutils.py:124-144 | a second `make_dirs` of the same directory answers False and changes nothing |
| FileUtils.Disk.MakeDirs | pypeline/common/fileutils.py:124-144 | the result and the new filesystem are those of the `make_dirs` transition, and "" raises ValueError |
| FileUtils.DescribeFiles | pypeline/common/fileutils.py:202-213 | "No files" for none, repr of the path for one, "N files in 'dir'" when all share a directory, "N files" otherwise |
| Msa.ValidateMsa | pypeline/common/formats/msa.py:111-135 | passes exactly when at least one alignment is given, each is non-empty with non-empty names and equal lengths, and all share one name set; no argument is TypeError, anything else MSAError |
| Msa.ValidSingle | pypeline/common/formats/msa.py:111-135 | one alignment is valid exactly when it is well formed on its own |
| Msa.CheckEach | pypeline/common/formats/msa.py:116-127 | the per-alignment checks pass exactly when every alignment is well formed |
| Msa.NamesAgree | pypeline/common/formats/msa.py:129-135 | the union of the name sets equals their intersection exactly when all name sets are equal |
| Msa.JoinMsa | pypeline/common/formats/msa.py:56-66 | validates first; the joined alignment has the same names, and each name maps to its sequences concatenated in argument order |
| Msa.JoinedLength | pypeline/common/formats/msa.py:56-66 | each joined sequence is as long as its parts together |
| Msa.JoinedIsValid | pypeline/common/formats/msa.py:56-66 | joining valid alignments gives a valid alignment |
| Msa.AppendEach | pypeline/common/formats/msa.py:62-65 | one step of the join loop appends each name's next part and keeps the names |
| Msa.Split | tests/unit/common_tests/formats_tests/msa_test.py:162-199 | an empty `split_by` raises TypeError; otherwise there is one partition per label of `split_by` |
| Msa.ColumnsLength | tests/unit/common_tests/formats_tests/msa_test.py:162-199 | a partition's length depends only on the sequence length |
| Msa.ColumnsOfSingleLabel | tests/unit/common_tests/formats_tests/msa_test.py:162-199 | a label found at every position of `split_by` takes the whole sequence |
| Msa.ColumnsOfAbsentLabel | tests/unit/common_tests/formats_tests/msa_test.py:162-199 | a label that receives no column takes the empty string |
| Msa.SplitMsa | pypeline/common/formats/msa.py:37-53 | validates first (MSAError), then rejects an empty `split_by` (TypeError); the result has one alignment per label, each holding every name's partition |
| Msa.SplitAll | pypeline/common/formats/msa.py:44-53 | the split loop gives one alignment per label, each with exactly the input's names mapped to their partitions |
| Msa.SplitNames | pypeline/common/formats/msa.py:48-52 | the loop over names stores every name's partition under each label |
| Msa.SplitStep | pypeline/common/formats/msa.py:48-52 | storing one more name's partitions extends the loop's progress by that name |
| Msa.StorePartition | pypeline/common/formats/msa.py:50-52 | `results[key][name] = partition` for every label, leaving the other names unchanged |
| Msa.SplitPartsValid | pypeline/common/formats/msa.py:37-53 | every part of a split valid alignment is itself valid |
| Msa.ParseMsa | pypeline/common/formats/msa.py:69-86 | succeeds exactly when the FASTA parses, its names are distinct and the alignment is well formed; the result maps each name to its sequence and its meta; a repeated name among the records read before a malformed one raises MSAError, and a malformed record after distinct names raises FASTAError |
| Msa.CollectRecords | pypeline/common/formats/msa.py:77-86 | a repeated name raises MSAError as soon as it is read, before any error of the FASTA reader after it; a malformed alignment raises MSAError; otherwise each record is stored under its name |
| Msa.DuplicateBeforeMalformed | pypeline/common/formats/msa.py:77-79 | for `>a AC >a GT >c` the FASTA does not parse, yet the records read before the error repeat a name, so the result is MSAError |
| Msa.CollectStep | pypeline/common/formats/msa.py:77-81 | a name seen before means the names are not distinct; otherwise one more record extends both maps |
| Msa.SequencesOfDistinct | pypeline/common/formats/msa.py:74-81 | with distinct names, each record's sequence is found under its name |
| Msa.MsaRecords | pypeline/common/formats/msa.py:99-102 | the records written are the alignment's names in sorted order, each with its sequence |
| Msa.PrintMsa | pypeline/common/formats/msa.py:99-102 | an invalid alignment raises MSAError; otherwise the FASTA lines of the records in sorted name order |
| Msa.PrintParseRoundTrip | pypeline/common/formats/msa.py:69-102 | parsing what `print_msa` wrote gives back exactly the alignment |
| Msa.MsaRecordsSequences | pypeline/common/formats/msa.py:99-102 | the written records, read as an alignment, are the alignment |
| Phylip.SequentialPhy | pypeline/common/formats/phylip.py:37-53 | an invalid alignment raises MSAError; otherwise the header, an empty line and one entry per name in sorted order, joined by newlines |
| Phylip.WriteEntries | pypeline/common/formats/phylip.py:45-51 | the entry loop writes each truncated name followed by its sequence rows |
| Phylip.SequentialRowWidths | pypeline/common/formats/phylip.py:48-51 | the sequence is cut into rows of 60 characters, all full but the last |
| Phylip.SequentialRowsReadBack | pypeline/common/formats/phylip.py:48-51 | removing the block spacing from the rows gives back the sequence |
| Phylip.FullBlocks | pypeline/common/formats/phylip.py:48-51 | blocks of 10 characters are full in every row but the last |
| Phylip.Truncate | pypeline/common/formats/phylip.py:45-46 | `name[:n]`: a prefix of the name, at most `n` long and the whole name when it fits |
| Phylip.ColumnStart | pypeline/common/formats/phylip.py:64-65 | the sequence column starts at the smallest multiple of 12 that is at least the capped longest name plus two |
| Phylip.NamesFitColumn | pypeline/common/formats/phylip.py:64-70 | every truncated name fits in the name column |
| Phylip.InterleavedPhy | pypeline/common/formats/phylip.py:57-91 | an invalid alignment raises MSAError; otherwise the header, an empty line and the interleaved rows, joined by newlines |
| Phylip.BuildStream | pypeline/common/formats/phylip.py:71-81 | the inner loop lays out one name and its blocks of 10 into lines |
| Phylip.BuildStreams | pypeline/common/formats/phylip.py:67-81 | the outer loop builds the lines of every sequence in sorted name order |
| Phylip.StreamReadBack | pypeline/common/formats/phylip.py:71-81 | removing spaces from a sequence's lines gives back the name and the sequence |
| Phylip.StreamLineWidths | pypeline/common/formats/phylip.py:76-81 | every closed line has reached 70 characters, and no later line exceeds 70 plus one spaced block |
| Phylip.StreamFirstLine | pypeline/common/formats/phylip.py:71-81 | a sequence's first line starts with the name padded to the column, the spacing and the first block |
| Phylip.StreamLinesAligned | pypeline/common/formats/phylip.py:71-81 | sequences of equal length with names in the same column give equally many lines of equal lengths |
| Phylip.InterleavedKeepsEveryLine | pypeline/common/formats/phylip.py:83-91 | for a valid alignment all sequences have the same number of lines, so the row loop writes every line of every sequence |
| Phylip.WriteRows | pypeline/common/formats/phylip.py:83-91 | the row loop writes row r of every sequence, then an empty line |
| Phylip.InterleaveIndex | pypeline/common/formats/phylip.py:83-91 | line k of row r is the r-th line of sequence k, and each row is followed by an empty line |
| Phylip.FrameMeaning | pypeline/common/formats/phylip.py:83-91 | the output starts with the header and an empty line and ends with the last sequence's last line, with no trailing empty line |
| Phylip.RowCount | pypeline/common/formats/phylip.py:83-91 | `zip` yields as many rows as the shortest sequence has lines |
| Phylip.GrouperIsPaddedChunks | pypeline/common/utilities.py:130-133 | `grouper` gives the same groups as the unpadded chunks, with only the last one padded |
| NodeFormats.PartitionByLength | pypeline/nodes/formats.py:41-42 | an entry passes exactly when it is a dict whose `partition_by`, if present, has length 3; a non-dict is AttributeError, an unsized value TypeError, another length ValueError |
| NodeFormats.LengthScan | pypeline/nodes/formats.py:41-42 | the `any` scan passes exactly when every entry passes, and otherwise raises the first failing entry's error |
| NodeFormats.LengthScanOfValues | pypeline/nodes/formats.py:41-42 | scanning the values in iteration order passes exactly when every entry passes |
| NodeFormats.CheckInfilesAsWritten | pypeline/nodes/formats.py:37-48 | the constructor checks in their written order pass exactly when the written conditions hold; errors are ValueError, TypeError, AttributeError or NameError |
| NodeFormats.CheckInfiles | pypeline/nodes/formats.py:37-48 | the intended checks pass exactly when `partition_by` has length 3, `infiles` is a dict of dicts, every entry has a "name" and only valid keys, and every per-file `partition_by` has length 3; a non-dict entry is TypeError and a missing name ValueError |
| NodeFormats.NamelessExampleShape | pypeline/nodes/formats.py:45-46 | an input with one named and one nameless entry passes the written check but not the intended one |
| NodeFormats.NamelessEntryAccepted | pypeline/nodes/formats.py:45-46 | that input is accepted as written and refused with ValueError as intended |
| NodeFormats.StringEntryAttributeError | pypeline/nodes/formats.py:41-44 | a string where an entry dict belongs raises AttributeError as written and TypeError as intended |
| NodeFormats.InvalidKeyNameError | pypeline/nodes/formats.py:47-48 | an entry with an invalid key raises NameError as written, because the message uses the comprehension's variable, and ValueError as intended |
| NodeFormats.PartitionBy | pypeline/nodes/formats.py:149-156 | one group per label, each with the offsets among 0, 1, 2 that carry that label |
| NodeFormats.PartitionByLabels | pypeline/nodes/formats.py:149-156 | the groups are exactly the labels used, each once, in sorted label order |
| NodeFormats.PartitionByDisjoint | pypeline/nodes/formats.py:149-156 | no offset lies in two groups and no group is empty |
| NodeFormats.PartitionByHas | pypeline/nodes/formats.py:149-156 | every offset reached by the labels lies in some group |
| NodeFormats.PartitionByOwn | pypeline/nodes/formats.py:149-156 | the group an offset lies in is the group of its own label |
| NodeFormats.PartitionByEmpty | pypeline/nodes/formats.py:149-156 | there are no groups exactly when `partition_by` is empty |
| NodeFormats.OffsetsFrom | pypeline/nodes/formats.py:153-154 | the offsets carrying a label, in increasing order, each one reached by `zip` |
| NodeFormats.GroupPartsCover | pypeline/nodes/formats.py:131-135 | within a file's range, a position is covered by a label's parts exactly when its codon offset carries that label; "start-end" for a label on all three offsets, "start+offset-end\\3" otherwise |
| NodeFormats.EveryThirdCovers | pypeline/nodes/formats.py:133 | the part "start+o-end\\3" covers exactly the positions at offset o from the start |
| NodeFormats.WholeCover | pypeline/nodes/formats.py:134-135 | a label holding all three offsets covers the whole range |
| NodeFormats.AddGroups | pypeline/nodes/formats.py:131-138 | a file without a "name" raises KeyError when it has labels; otherwise every "<name>_<label>" partition is present and the earlier partitions are kept |
| NodeFormats.AddFileParts | pypeline/nodes/formats.py:131-138 | the label loop extends the partitions as the specification function says |
| NodeFormats.AddGroupsStep | pypeline/nodes/formats.py:137-138 | one more label appends its parts to its partition |
| NodeFormats.StepFile | pypeline/nodes/formats.py:124-138 | one file passes exactly when it is read, its names match the first file's, and it has a name or no labels; its range follows the previous end by its length; a failure is NodeError or KeyError |
| NodeFormats.StepOf | pypeline/nodes/formats.py:149-156 | a file's step holds its labels' groups and the result of reading it |
| NodeFormats.FileSteps | pypeline/nodes/formats.py:124-131 | the files' steps in loop order |
| NodeFormats.RunStepsOk | pypeline/nodes/formats.py:124-138 | the loop succeeds exactly when every file is read, all files have the first file's names, and every file with labels has a name |
| NodeFormats.RunStepsEnd | pypeline/nodes/formats.py:128-129 | after a successful loop, `end` is the sum of the files' alignment lengths |
| NodeFormats.RunStepsExpected | pypeline/nodes/formats.py:227-232 | after a successful loop the expected names are the first file's |
| NodeFormats.RunStepsErrors | pypeline/nodes/formats.py:124-138 | the loop raises a file's read error, NodeError or KeyError |
| NodeFormats.RunStepsErrStays | pypeline/nodes/formats.py:124-138 | once the loop has raised, later files change nothing |
| NodeFormats.ProcessFile | pypeline/nodes/formats.py:127-138 | one iteration computes the step function |
| NodeFormats.ProcessFiles | pypeline/nodes/formats.py:124-138 | the file loop computes the step function over all files in order |
| NodeFormats.PartitionLines | pypeline/nodes/formats.py:140-142 | one line "DNA, <name> = <parts joined by ', '>" per partition, in sorted name order |
| NodeFormats.FastaToPartitions | pypeline/nodes/formats.py:124-142 | `FastaToPartitionsNode._run` gives the partition lines of the files in sorted order, or the error raised on the way |
| NodeFormats.Ranges | pypeline/nodes/formats.py:80-84 | one range per entry |
| NodeFormats.RangesSums | pypeline/nodes/formats.py:80-84 | each range runs from the sum of the lengths before it plus one to the sum including its own |
| NodeFormats.RangesConsecutive | pypeline/nodes/formats.py:80-84 | the ranges start at 1, each is as long as its entry, and each starts right after the previous one |
| NodeFormats.RangesCoverJoined | pypeline/nodes/formats.py:75-84 | the ranges start at 1 and the last ends at the length of the joined alignment |
| NodeFormats.RangeLinesMeaning | pypeline/nodes/formats.py:80-84 | line i is "DNA, name = a-b" for entry i's consecutive range |
| NodeFormats.WriteRanges | pypeline/nodes/formats.py:80-84 | the loop with its running `end` writes exactly those range lines |
| NodeFormats.RemoveGroups | pypeline/nodes/formats.py:71-72 | popping the excluded groups succeeds exactly when they are distinct names of the alignment, and removes exactly them; otherwise KeyError |
| NodeFormats.PopGroups | pypeline/nodes/formats.py:71-72 | the pop loop computes that removal |
| NodeFormats.Tagged | pypeline/nodes/formats.py:70 | the split keyed by the label as a string, each part unchanged |
| NodeFormats.SplitTagged | pypeline/nodes/formats.py:70 | `split_msa` with string keys; an empty `split_by` raises TypeError |
| NodeFormats.FileEntries | pypeline/nodes/formats.py:70-73 | one entry "<name>_<label>" per label in sorted order, each with the excluded groups removed; a missing name or a bad exclusion raises KeyError |
| NodeFormats.AddEntries | pypeline/nodes/formats.py:70-73 | the label loop computes those entries |
| NodeFormats.FileResultOk | pypeline/nodes/formats.py:68-73 | a file contributes exactly when it is read, has labels and a name, and the excluded groups are distinct names of its alignment |
| NodeFormats.ReadEntries | pypeline/nodes/formats.py:68-73 | one file's iteration computes its contribution |
| NodeFormats.CollectMeaning | pypeline/nodes/formats.py:67-73 | collecting succeeds exactly when every file contributes, and then the entries are the files' entries in order; otherwise it raises some file's error |
| NodeFormats.CollectFiles | pypeline/nodes/formats.py:67-73 | the file loop in sorted order builds `msas` or raises |
| NodeFormats.EntriesOutput | pypeline/nodes/formats.py:75-77 | writing succeeds exactly when the collected alignments are valid together; no entries is TypeError, anything else MSAError |
| NodeFormats.JoinedOfLength | pypeline/nodes/formats.py:75 | the joined alignment is as long as its parts together |
| NodeFormats.WriteOutputs | pypeline/nodes/formats.py:75-84 | joining, writing the PHYLIP text and the range lines compute the output function |
| NodeFormats.PartitionedInterleaved | pypeline/nodes/formats.py:66-84 | `FastaToPartitionedInterleavedPhyNode._run` gives the PHYLIP text and the range lines, or the error raised on the way |
| NodeFormats.SequenceLength | pypeline/nodes/formats.py:128 | `len(next(iter(msa.values())))`: every sequence of the alignment has this length |
| NodeSequences.FilterTable | pypeline/nodes/sequences.py:93-98 | each target's group gains the target itself; a group that is then just the target raises RuntimeError; the keys are kept |
| NodeSequences.RewriteFilterBy | pypeline/nodes/sequences.py:94-98 | the constructor's loop computes that table |
| NodeSequences.Filtered | pypeline/nodes/sequences.py:111-118 | the filtered sequence has the target's length |
| NodeSequences.FilteredMeaning | pypeline/nodes/sequences.py:113-116 | a base changes exactly when it is not N, n or - and occurs once in its group's column, and a changed base is 'n' |
| NodeSequences.CountOne | pypeline/nodes/sequences.py:115 | `nts.count(nt) == 1` exactly when no other position of the column holds `nt` |
| NodeSequences.ColumnCountOne | pypeline/nodes/sequences.py:111-115 | the target's base counts once in its column exactly when no other group member has that base there |
| NodeSequences.MaskSingletons | pypeline/nodes/sequences.py:111-118 | the column loop computes the filtered sequence |
| NodeSequences.FilterTarget | pypeline/nodes/sequences.py:110-118 | a group naming a missing taxon raises KeyError; otherwise the alignment stays valid with the same names, and only the target's entry is reassigned |
| NodeSequences.FilterTargetSettled | pypeline/nodes/sequences.py:110-118 | filtering the same target again changes nothing, since no base outside N, n and - is left unique to it |
| NodeSequences.FilterAll | pypeline/nodes/sequences.py:107-118 | the targets are filtered one after another on the same alignment, which stays valid with the same names |
| NodeSequences.FilterAllFrame | pypeline/nodes/sequences.py:110-118 | lengths are preserved, taxa that are not targets are untouched, and every changed base is 'n' |
| NodeSequences.FilterAllErr | pypeline/nodes/sequences.py:110-118 | the run fails exactly when some target's group names a missing taxon, and then with KeyError |
| NodeSequences.FilterAllErrStays | pypeline/nodes/sequences.py:110-118 | once a target fails, the run fails with that error |
| NodeSequences.FilterAllPair | pypeline/nodes/sequences.py:110-118 | with two targets, the second is filtered on the first one's result |
| NodeSequences.FilterOrderMatters | pypeline/nodes/sequences.py:110-118 | for a concrete alignment, filtering a then b masks b's base, while b then a leaves it, so later targets see earlier replacements |
| NodeSequences.FilterSingletons | pypeline/nodes/sequences.py:107-118 | `FilterSingletonsNode._run` computes the filtering of all targets on the alignment read |
| NodeSequences.CollectOutfiles | pypeline/nodes/sequences.py:48 | exactly one output file "<destination>/<name>.fasta" per requested sequence |
| NodeSequences.CollectOutfileNamed | pypeline/nodes/sequences.py:75-86 | each output file is named "<name>.fasta", and the file moved out is the temp file rerooted at the destination |
| NodeSequences.CollectOutfilesDistinct | pypeline/nodes/sequences.py:48 | different sequences get different output files |
| NodeSequences.RecordMapLast | pypeline/nodes/sequences.py:62-63 | each record name maps to the sequence of the last record carrying it |
| NodeSequences.ReadRecords | pypeline/nodes/sequences.py:61-63 | the record loop builds that map |
| NodeSequences.ReadTaxaMeaning | pypeline/nodes/sequences.py:59-64 | keyed by taxon, reading succeeds exactly when every file is read, and then maps every taxon to its file's records; otherwise some file's error is raised |
| NodeSequences.ReadTaxaOutcome | pypeline/nodes/sequences.py:59-64 | reading succeeds exactly when every file is read, and a failure is some file's read error |
| NodeSequences.ReadTaxaValues | pypeline/nodes/sequences.py:59-64 | when every file is read, the keys are the taxa and each maps to its file's records |
| NodeSequences.ReadFiles | pypeline/nodes/sequences.py:59-64 | the file loop computes that reading |
| NodeSequences.SequenceTextMeaning | pypeline/nodes/sequences.py:68-73 | an output file is written exactly when every taxon has the sequence and a name in its taxa map; it then holds one record ">taxon name" per taxon in order; otherwise KeyError |
| NodeSequences.RecordTextIsWrapFasta | pypeline/nodes/sequences.py:70-73 | each record is the header line followed by the sequence in lines of 60 characters |
| NodeSequences.WriteSequence | pypeline/nodes/sequences.py:68-77 | the taxon loop computes one output file's text |
| NodeSequences.WriteAllMeaning | pypeline/nodes/sequences.py:67-77 | all files are written exactly when each sequence's file is, one per requested sequence, each with its text; otherwise KeyError |
| NodeSequences.WriteFiles | pypeline/nodes/sequences.py:67-77 | the sequence loop computes all output files |
| NodeSequences.WriteMissing | pypeline/nodes/sequences.py:69-71 | a sequence missing from some taxon's records, or without a name for some taxon, raises KeyError |
| NodeSequences.CollectRunMeaning | pypeline/nodes/sequences.py:58-77 | when every file is read and every sequence is present for every taxon, the run writes the collected files; otherwise it raises KeyError or a read error |
| NodeSequences.CollectSequences | pypeline/nodes/sequences.py:58-77 | `CollectSequencesNode._run`, keyed by taxon, computes the run |
| NodeSequences.ReboundLosesTaxon | pypeline/nodes/sequences.py:60-64 | as written, the inner loop rebinds `name`, so a taxon whose record is named differently is filed under the record's name and the run raises KeyError |
| NodeSequences.KeyedKeepsTaxon | pypeline/nodes/sequences.py:60-64 | the same input, keyed by taxon, writes the record |
| Paml.FastaToPamlPhy | pypeline/tools/phylo_pipeline/parts/paml.py:50-65 | an unreadable alignment raises FASTAError or MSAError; otherwise the text is the PAML lines of the alignment read, joined by newlines |
| Paml.PhyLines | pypeline/tools/phylo_pipeline/parts/paml.py:51-62 | popping the excluded groups and building the lines computes the run function |
| Paml.PamlRunMeaning | pypeline/tools/phylo_pipeline/parts/paml.py:51-62 | fails exactly when an excluded group is missing or repeated (KeyError) or nothing is left (StopIteration); otherwise the header counts the remaining sequences and gives their length, and the rest reads back as the remaining sequences, upper-cased, in sorted name order |
| Paml.KeptUniform | pypeline/tools/phylo_pipeline/parts/paml.py:51-53 | the alignment left after the pops keeps equal sequence lengths |
| Paml.HeaderFields | pypeline/tools/phylo_pipeline/parts/paml.py:56 | the header is two spaces, the sequence count, a space and the length, and both numbers read back |
| Paml.AppendBlocks | pypeline/tools/phylo_pipeline/parts/paml.py:57-62 | the name loop appends, for each name in order, an empty line, the name and its lines of bases |
| Paml.AppendBlocksStep | pypeline/tools/phylo_pipeline/parts/paml.py:57-62 | one more name extends the lines by its block |
| Paml.AppendSequence | pypeline/tools/phylo_pipeline/parts/paml.py:61-62 | the inner loop appends one line per 60 bases |
| Paml.CodonLines | pypeline/tools/phylo_pipeline/parts/paml.py:61-62 | one line per chunk of bases |
| Paml.CodonLineSplits | pypeline/tools/phylo_pipeline/parts/paml.py:62 | a line splits on spaces into the triplets of its chunk, which concatenate to the chunk |
| Paml.ChunksReadBack | pypeline/tools/phylo_pipeline/parts/paml.py:61-62 | the bases of a sequence's lines are the upper-cased sequence, and no line is empty |
| Paml.ReadBlocksOfBlocks | pypeline/tools/phylo_pipeline/parts/paml.py:57-62 | the blocks read back as the names with their upper-cased sequences |
| Paml.Records | pypeline/tools/phylo_pipeline/parts/paml.py:57-62 | the records the output should read back as: each name with its upper-cased sequence |
| Paml.PostfixesRoundTrip | pypeline/tools/phylo_pipeline/parts/paml.py:155-160 | any filtering gives ".filtered"; a disabled alignment gives ".fasta" input and an output postfix starting with ".unaligned"; the settings can be read back from the postfixes |
| Paml.OutPostfixDistinct | pypeline/tools/phylo_pipeline/parts/paml.py:155-165 | two runs get the same codeml directory exactly when their filtering and alignment settings agree |
| Paml.EqualsEnd | pypeline/tools/phylo_pipeline/parts/paml.py:143-147 | the match of `\s*=` after a key ends just past an '=' |
| Paml.MatchFrom | pypeline/tools/phylo_pipeline/parts/paml.py:143-147 | a match of the key pattern on a line ends just past an '=' after the key |
| Paml.SubnLines | pypeline/tools/phylo_pipeline/parts/paml.py:143-147 | the substitution rewrites each line that matches and no other |
| Paml.SubnNone | pypeline/tools/phylo_pipeline/parts/paml.py:143-147 | the count is zero exactly when no line matches |
| Paml.SubnCount | pypeline/tools/phylo_pipeline/parts/paml.py:143-148 | the count is one exactly when a single line matches |
| Paml.SubLineIdempotent | pypeline/tools/phylo_pipeline/parts/paml.py:143-147 | substituting a line twice is the same as substituting it once |
| Paml.SubnIdempotent | pypeline/tools/phylo_pipeline/parts/paml.py:143-147 | substituting the template twice is the same as substituting it once |
| Paml.UpdateCtl | pypeline/tools/phylo_pipeline/parts/paml.py:136-151 | any substitution count other than one fails the assertion |
| Paml.UpdateCtlMeaning | pypeline/tools/phylo_pipeline/parts/paml.py:136-148 | the update succeeds exactly when each of seqfile, treefile and outfile matches one line of the template as it stands at its turn |
| VcfBuffer.NextVarMeaning | pypeline/tools/vcf_pipeline/VCFBuffer.py:74-83 | `nextvar` moves the leading '#' lines to the header; end of file or an empty line gives `[]`, any other line a variant, and the rest of the file follows it |
| VcfBuffer.NextVarHeader | pypeline/tools/vcf_pipeline/VCFBuffer.py:77-79 | a '#' line read by `nextvar` goes to the header |
| VcfBuffer.NextVarBody | pypeline/tools/vcf_pipeline/VCFBuffer.py:80-83 | any other line ends `nextvar` |
| VcfBuffer.VCFBuffer.NextVarMethod | pypeline/tools/vcf_pipeline/VCFBuffer.py:74-83 | the new state and the entry are those of the `nextvar` transition |
| VcfBuffer.VCFBuffer.ReadLine | pypeline/tools/vcf_pipeline/VCFBuffer.py:76 | reading one line consumes it from the file and changes nothing else |
| VcfBuffer.Fill | pypeline/tools/vcf_pipeline/VCFBuffer.py:116-118 | appending staged variants keeps the cursor and the entries already buffered |
| VcfBuffer.FillFull | pypeline/tools/vcf_pipeline/VCFBuffer.py:86-92 | after the first loop the downstream side is full: `len(buffer) - current > max_buffer_size` |
| VcfBuffer.TrimMeaning | pypeline/tools/vcf_pipeline/VCFBuffer.py:119-121 | front pops paired with `current -= 1` keep the entry under the cursor and the entries after it, and leave the upstream side full: `current <= max_buffer_size` |
| VcfBuffer.RebufferMeaning | pypeline/tools/vcf_pipeline/VCFBuffer.py:112-121 | an empty buffer is left alone; otherwise both sides end full, `buffer[current]` is the same entry, and the entries after it are kept |
| VcfBuffer.VCFBuffer.RebufferMethod | pypeline/tools/vcf_pipeline/VCFBuffer.py:112-121 | the new state is that of the `rebuffer` transition |
| VcfBuffer.ReadlineMeaning | pypeline/tools/vcf_pipeline/VCFBuffer.py:123-139 | the first call returns the staged variant; at the last entry with nothing staged it returns `[]` and changes nothing; otherwise it returns the next entry, which is then under the cursor |
| VcfBuffer.VCFBuffer.ReadlineMethod | pypeline/tools/vcf_pipeline/VCFBuffer.py:123-139 | the new state and the entry are those of the `readline` transition |
| VcfBuffer.Next | pypeline/tools/vcf_pipeline/VCFBuffer.py:147-150 | raises StopIteration exactly when `readline` returns `[]`, and otherwise returns the entry it read |
| VcfBuffer.VCFBuffer.NextMethod | pypeline/tools/vcf_pipeline/VCFBuffer.py:147-150 | the new state and the result are those of `next` |
| VcfBuffer.HeaderRoundTrip | pypeline/tools/vcf_pipeline/VCFBuffer.py:141-142 | splitting the header text on newlines gives back the header lines |
| VcfBuffer.VCFBuffer.Header | pypeline/tools/vcf_pipeline/VCFBuffer.py:141-142 | the header lines joined by newlines |
| VcfWindow.ParsedMeaning | pypeline/tools/vcf_pipeline/vcf_window.py:28-39 | reading fails exactly when some variant line is malformed; otherwise one position per variant line, '#' lines skipped |
| VcfWindow.ParsedFailStays | pypeline/tools/vcf_pipeline/vcf_window.py:28-43 | once a line has raised, the lines after it are not read |
| VcfWindow.WindowFor | pypeline/tools/vcf_pipeline/vcf_window.py:39-41 | the least window from the start whose end reaches the position |
| VcfWindow.Assign | pypeline/tools/vcf_pipeline/vcf_window.py:36-43 | one window number and one chromosome per variant, so the two lists stay equal in length |
| VcfWindow.AssignMeaning | pypeline/tools/vcf_pipeline/vcf_window.py:36-43 | each variant gets its chromosome and the least window, counting from its start, that reaches its position |
| VcfWindow.WindowsOrdered | pypeline/tools/vcf_pipeline/vcf_window.py:36-42 | windows are at least 1 and reach their position; within a chromosome they never decrease; a new chromosome starts again from window 1 |
| VcfWindow.AssignCounts | pypeline/tools/vcf_pipeline/vcf_window.py:39-41 | `num_windows` grows by the increments within each chromosome, never on a reset |
| VcfWindow.VCFWindow.PopulateWindow | pypeline/tools/vcf_pipeline/vcf_window.py:24-43 | appends the assigned windows and chromosomes and adds the increments to `num_windows`, up to the first malformed line |
| VcfWindow.VCFWindow.AdvanceWindow | pypeline/tools/vcf_pipeline/vcf_window.py:39-41 | the `while` loop reaches the least window that covers the position and counts each step |
| Nodes.Children | pypeline/node.py:83-84 | the children of a node are exactly its subnodes and dependencies, and all were built before it |
| Nodes.ValidateDescription | pypeline/node.py:60-62 | the description is accepted exactly when it is None or a string, else TypeError |
| Nodes.ValidateFiles | pypeline/node.py:222-227 | a file set is accepted exactly when it coerces to a frozenset of strings, and then holds exactly those strings; else TypeError |
| Nodes.ValidateRequirements | pypeline/node.py:213-219 | requirements are accepted exactly when every coerced member is callable, and are kept as given; else TypeError |
| Nodes.ValidateNThreads | pypeline/node.py:230-235 | a non-integer raises TypeError, an integer below 1 ValueError, otherwise the thread count is that integer |
| Nodes.Dedup | pypeline/node.py:193 | the frozenset of the node list: the same members, no repeats |
| Nodes.Tags | pypeline/node.py:193-194 | the referenced nodes, one per list entry, all built before |
| Nodes.CollectNodes | pypeline/node.py:189-202 | None gives no nodes; otherwise accepted exactly when every member is a node, giving exactly those nodes; else TypeError |
| Nodes.NewNode | pypeline/node.py:55-84 | a node is built exactly when every argument check passes; it then holds the validated description, the four validated file sets, the validated requirements, the validated thread count (at least one) and the collected subnodes and dependencies; errors are TypeError or ValueError |
| Nodes.NewNodeThreadRule | pypeline/node.py:65-73 | with the other arguments valid, a bad thread count raises TypeError or ValueError; a dict given as a file set raises TypeError |
| Nodes.AddNodeKeepsGraphValid | pypeline/node.py:83-84 | a node whose children were built earlier keeps the graph acyclic when added |
| Nodes.NewCommandNode | pypeline/node.py:241-254 | a CommandNode's input and output files are exactly its command's, and it keeps the command |
| Nodes.NewMetaNode | pypeline/node.py:300-304 | a MetaNode is a node of the MetaNode kind whose children were built before it |
| Nodes.MetaNodeShape | pypeline/node.py:300-304 | a MetaNode has one thread and no files or requirements, and is refused only for its description, subnodes or dependencies |
| Nodes.SubnodesDoneMeaning | pypeline/node.py:94 | `all(node.is_done ...)` is true exactly when every subnode is done; false or an error is due to some subnode |
| Nodes.IsDoneMeaning | pypeline/node.py:88-99 | done exactly when not a MetaNode, every subnode is done and every output file exists; not done is due to a subnode or a missing output; errors are node errors |
| Nodes.LeafWithoutOutputsIsDone | pypeline/node.py:89-92 | a node without subnodes and output files is always done |
| Nodes.IsOutdated | pypeline/node.py:103-114 | a MetaNode raises MetaNodeError; an outdated node is done |
| Nodes.IsOutdatedMeaning | pypeline/node.py:103-114 | a done node with inputs and outputs is outdated exactly when some input is newer than some output, and a missing input raises OSError; otherwise never outdated |
| Nodes.SetupCheck | pypeline/node.py:147-155 | setup passes exactly when no executable, input or auxiliary file is missing; else NodeError |
| Nodes.RunCheck | pypeline/node.py:256-267 | a CommandNode fails exactly when a return code of its command is truthy, with CmdNodeError; other nodes pass |
| Nodes.TempCheck | pypeline/node.py:270-287 | the temporary directory passes exactly when it holds every required file and nothing but required and optional files; else CmdNodeError |
| Nodes.OutputCheck | pypeline/node.py:161-162 | teardown passes exactly when every output file exists; else NodeError |
| Nodes.Teardown | pypeline/node.py:270-291 | the intended teardown, with the temporary files taken over the command set's AtomicCmds (as written it raises AttributeError for a command set: see Nodes.TeardownAsWritten and Nodes.SetCommandTeardownAsWritten): a listing that fails the comparison raises CmdNodeError and commits nothing; every error is a command or node error |
| Nodes.Wrap | pypeline/node.py:138-144 | a NodeError is re-raised unchanged, any other exception becomes NodeUnhandledException |
| Nodes.Lifecycle | pypeline/node.py:129-144 | every failure of a run is reported as a node error |
| Nodes.CommitAllTemp | pypeline/atomicset.py:40-42 | after committing, a temporary file remains exactly when no command claimed it |
| Nodes.CommitAllFiles | pypeline/atomicset.py:40-42 | after committing, the final files are the old ones plus every command's destinations |
| Nodes.LifecycleSuccess | pypeline/node.py:117-144 | a successful run found every file at setup, saw no failing return code, left exactly the required and optional temporary files, committed every destination, has every output and removed the temporary directory |
| Nodes.LifecycleSucceeds | pypeline/node.py:117-144 | conversely, a run whose setup finds everything, whose command returns no truthy code, whose temporary directory holds exactly the required and perhaps optional files, whose commit finds every required file and whose outputs exist once committed, succeeds |
| Nodes.LifecycleNoCommitOnBadListing | pypeline/node.py:270-287 | a temporary directory that fails the comparison raises CmdNodeError and leaves every file where the command left it |
| Nodes.LifecycleSetupFirst | pypeline/node.py:133 | a failing setup raises NodeError before the command runs, with nothing changed |
| Nodes.SetCommandTeardownAsWritten | pypeline/node.py:270-272 | as written, a node with a ParallelCmds or SequentialCmds fails teardown with AttributeError, reported as NodeUnhandledException |
| Nodes.SetCommandTeardownCorrected | pypeline/node.py:270-291 | with temporary files taken over the command set's AtomicCmds, such a node's teardown commits its output |
| Nodes.Workspace.constructor | pypeline/node.py:129-130 | a workspace starts with the given disk and files and an empty temporary directory |
| Nodes.Workspace.Run | pypeline/node.py:117-144 | a MetaNode raises MetaNodeError; every failure is a node error; a success is the lifecycle run in a freshly created temporary directory |
| Nodes.Workspace.RunInTemp | pypeline/node.py:133-137 | the new state and outcome are those of the lifecycle run from the old state |
| AtomicSets.NewParallel | pypeline/atomicset.py:74-80 | a ParallelCmds is built from its list, or CmdError |
| AtomicSets.NewSequential | pypeline/atomicset.py:129-135 | a SequentialCmds is built from its list, or CmdError |
| AtomicSets.NewSetsAccept | pypeline/atomicset.py:32-35 | the constructors accept exactly the non-empty lists whose members they allow (AtomicCmds and ParallelCmds; for SequentialCmds any command set too), and keep well-formed members well formed |
| AtomicSets.ParallelRejectsSequential | pypeline/atomicset.py:77-79 | a ParallelCmds holding a SequentialCmds raises CmdError |
| AtomicSets.FilesAreAtomFiles | pypeline/atomicset.py:44-55 | a set's collected file list is the concatenation, in order, of its AtomicCmds' lists |
| AtomicSets.RequirementsAreAtomRequirements | pypeline/atomicset.py:56 | a set's requirements are the concatenation, in order, of its AtomicCmds' requirements |
| AtomicSets.AtomsOfMembers | pypeline/atomicset.py:41-48 | the AtomicCmds of a set are exactly those of its members |
| AtomicSets.TempFilesAsWritten | pypeline/atomicset.py:52-56 | only an AtomicCmd has the temporary-file properties; a command set raises AttributeError |
| AtomicSets.SetTempFilesMissing | pypeline/atomicset.py:52-56 | a ParallelCmds or SequentialCmds has no `expected_temp_files` (AttributeError) |
| AtomicSets.TempFilesOfSets | pypeline/atomicset.py:44-56 | the corrected temporary files of an AtomicCmd are its own, and a set's are the union over its members |
| AtomicSets.CommitAtom | pypeline/atomicset.py:40-42 | one member's commit succeeds exactly when its required files are present; it removes its temporary files, adds its destinations with the moved content and leaves the other final files alone |
| AtomicSets.Moved | pypeline/atomicset.py:40-42 | renames in order: each destination receives the content of the last file moved onto it, and only destinations change |
| AtomicSets.CommitAll | pypeline/atomicset.py:40-42 | a failing member's commit raises CmdError |
| AtomicSets.CommitAllSucceeds | pypeline/atomicset.py:40-42 | with every required file present and no two members claiming the same file, committing the set succeeds and leaves none of their temporary files |
| AtomicSets.Sweep | pypeline/atomicset.py:93-106 | the polling loop ends with a code list for every member |
| AtomicSets.ParallelOutcome | pypeline/atomicset.py:89-107 | one code list per member |
| AtomicSets.NotRuns | pypeline/atomicset.py:92 | `[[None]] * n` flattened: one None per member |
| AtomicSets.CodesFailed | pypeline/atomicset.py:99 | some collected code is truthy exactly when some decided member's codes are |
| AtomicSets.SweepSound | pypeline/atomicset.py:93-106 | every round of polling keeps each recorded code either the member's own or a SIGTERM sent after a member failed |
| AtomicSets.ParallelOutcomeMeaning | pypeline/atomicset.py:89-107 | each member reports its own codes or SIGTERM; without a failure no member is terminated; the set fails exactly when some member fails |
| AtomicSets.RunCount | pypeline/atomicset.py:139-142 | the number of members `run` starts lies between the start and the end of the list |
| AtomicSets.RunCountStopsAtFirstFailure | pypeline/atomicset.py:138-144 | `run` starts every member up to and including the first failing one, and none after it |
| AtomicSets.NotRunNeverFails | pypeline/atomicset.py:92 | a command that was never started reports no truthy code |
| AtomicSets.JoinAfterFails | pypeline/atomicset.py:151-156 | the joined codes contain a truthy one exactly when some started member failed |
| AtomicSets.SequentialFailsIffMemberFails | pypeline/atomicset.py:138-156 | a SequentialCmds fails exactly when one of its members fails, and the members it never started report no failure |
| AtomicSets.ParallelCmds.Init | pypeline/atomicset.py:74-80 | a new ParallelCmds holds its members and is not joinable |
| AtomicSets.ParallelCmds.Run | pypeline/atomicset.py:83-86 | after `run` the set is joinable |
| AtomicSets.ParallelCmds.Join | pypeline/atomicset.py:89-107 | before `run`, one None per member; after, the polled outcome of every member flattened in order |
| AtomicSets.NotRunCodes | pypeline/atomicset.py:92 | no member decided gives one None per member |
| AtomicSets.NewParallelCmds | pypeline/atomicset.py:74-80 | construction fails with CmdError exactly when the list is refused, else a fresh set that is not joinable |
| AtomicSets.SequentialCmds.Init | pypeline/atomicset.py:129-135 | a new SequentialCmds holds its members, is not ready and has started none |
| AtomicSets.SequentialCmds.Run | pypeline/atomicset.py:138-144 | after `run` the set is ready and has started the members up to the first failing one |
| AtomicSets.SequentialCmds.Join | pypeline/atomicset.py:151-156 | the started members' codes followed by the others' Nones, in order |
| AtomicSets.NewSequentialCmds | pypeline/atomicset.py:129-135 | construction fails with CmdError exactly when the list is refused, else a fresh set that is not ready |
| Builders.LastIndex | pypeline/atomiccmd/builder.py:225-228 | the last record with the key, or none when no record has it |
| Builders.GetOptionForEditing | pypeline/atomiccmd/builder.py:217-229 | a lookup succeeds only before finalizing and for a non-empty string key, gives the last record with that key, and that record's kind matches the one asked for |
| Builders.OutcomeOf | pypeline/atomiccmd/builder.py:129-157 | a mutator passes exactly when it did not raise, and otherwise reports its error |
| Builders.After | pypeline/atomiccmd/builder.py:129-157 | a mutator that raised leaves the option list unchanged |
| Builders.FinalizedRejectsEdits | pypeline/atomiccmd/builder.py:218-219 | once finalized, `set_option`, `add_option` and `pop_option` all raise AtomicCmdBuilderError |
| Builders.BadKeysRejected | pypeline/atomiccmd/builder.py:220-223 | a key that is not a string raises TypeError and "" raises KeyError, in every mutator |
| Builders.SetOptionMeaning | pypeline/atomiccmd/builder.py:129-140 | `set_option` appends one singleton for a new key, replaces a non-fixed singleton in place, and raises on a fixed one or on a key added with `add_option` |
| Builders.AddOptionMeaning | pypeline/atomiccmd/builder.py:143-148 | `add_option` appends a record unless the key was set with `set_option`, in which case it raises |
| Builders.PopOptionMeaning | pypeline/atomiccmd/builder.py:151-157 | (intended) `pop_option` removes the last record with the key and keeps the rest in order; a missing key raises KeyError and a fixed record AtomicCmdBuilderError |
| Builders.SingletonAlone | pypeline/atomiccmd/builder.py:129-148 | a key set with `set_option` occurs once in the option list |
| Builders.SetKeepsWellFormed | pypeline/atomiccmd/builder.py:129-140 | `set_option` keeps keys non-empty and never mixes singletons with added options |
| Builders.AddKeepsWellFormed | pypeline/atomiccmd/builder.py:143-148 | `add_option` keeps the option list well formed |
| Builders.PopKeepsWellFormed | pypeline/atomiccmd/builder.py:151-157 | `pop_option` keeps the option list well formed |
| Builders.RemoveFirstAt | pypeline/atomiccmd/builder.py:157 | `list.remove(x)` drops the first element equal to `x` and keeps the rest in order |
| Builders.PopAsWrittenAgrees | pypeline/atomiccmd/builder.py:151-157 | as written, `pop_option` agrees with the intended removal whenever no earlier record equals the last one with the key |
| Builders.PopAsWrittenRemovesEarlier | pypeline/atomiccmd/builder.py:151-157 | on `-a 1`, `-b`, `-a 1`, popping `-a` as written removes the first `-a 1` instead of the last |
| Builders.PopCounterexampleReachable | pypeline/atomiccmd/builder.py:143-148 | that option list is reached by three calls of `add_option` |
| Builders.PopAsWrittenRendersDifferently | pypeline/atomiccmd/builder.py:177-192 | the two results give different command lines |
| Builders.Plains | pypeline/atomiccmd/builder.py:178-192 | the base call and the values appear unchanged and in order |
| Builders.RenderOptionsAppend | pypeline/atomiccmd/builder.py:180-189 | rendering options distributes over concatenation |
| Builders.RenderShape | pypeline/atomiccmd/builder.py:177-192 | the call is the base call, then the options' tokens, then the values |
| Builders.RenderAppended | pypeline/atomiccmd/builder.py:143-148 | an appended option renders right before the values |
| Builders.RenderAround | pypeline/atomiccmd/builder.py:180-189 | an option's tokens sit between those of the options before and after it |
| Builders.RenderReplaced | pypeline/atomiccmd/builder.py:129-140 | an option replaced in place renders where the old one did |
| Builders.RenderRemoved | pypeline/atomiccmd/builder.py:151-157 | a removed option's tokens disappear and the others stay in order |
| Builders.AtomicCmd.constructor | pypeline/atomiccmd/builder.py:208-214 | the command keeps the call and keyword arguments it was built from |
| Builders.CmdBuilder.constructor | pypeline/atomiccmd/builder.py:117-126 | a new builder has the call coerced to a tuple, no options, no values, the given kwargs, and is not finalized |
| Builders.CmdBuilder.SetOption | pypeline/atomiccmd/builder.py:129-140 | the outcome and new option list are those of `set_option`; nothing else changes |
| Builders.CmdBuilder.AddOption | pypeline/atomiccmd/builder.py:143-148 | the outcome and new option list are those of `add_option`; nothing else changes |
| Builders.CmdBuilder.PopOption | pypeline/atomiccmd/builder.py:151-157 | the outcome and new option list are those of the intended `pop_option`; nothing else changes |
| Builders.CmdBuilder.AddValue | pypeline/atomiccmd/builder.py:160-163 | the value is appended to the positional values; nothing else changes |
| Builders.CmdBuilder.SetKwargs | pypeline/atomiccmd/builder.py:166-173 | succeeds exactly before finalizing with no key already present, adding the new keywords; otherwise raises and changes nothing |
| Builders.CmdBuilder.Call | pypeline/atomiccmd/builder.py:177-192 | the loop builds the base call, each option's tokens in order, then the values |
| Builders.CmdBuilder.Finalize | pypeline/atomiccmd/builder.py:208-214 | the first call creates the command from the current call and kwargs; later calls return the same object |
| Builders.FinalizeIsLatch | pypeline/atomiccmd/builder.py:208-229 | after finalizing every mutator and `set_kwargs` raises and `finalize` returns the same command |
| Builders.JavaBuilderArgs | pypeline/atomiccmd/builder.py:235-250 | the Java call is `java -server -Xmx4g -Djava.io.tmpdir=<temp_root> -Djava.awt.headless=true`, then the garbage-collector option for the thread count, then `-jar %(AUX_JAR)s`; a bad thread count raises |
| Builders.MpiBuilderArgs | pypeline/atomiccmd/builder.py:256-268 | one thread keeps the call; more prefix `mpirun -n <threads>` and set EXEC_MAIN to the first token; a bad thread count raises |
| Builders.NewJavaBuilder | pypeline/atomiccmd/builder.py:235-250 | a fresh builder over the Java call exactly when the arguments are valid, else their error |
| Builders.NewMpiBuilder | pypeline/atomiccmd/builder.py:256-268 | a fresh builder over the MPI call exactly when the arguments are valid, else their error |
| Builders.MpiCallRenders | pypeline/atomiccmd/builder.py:262-268 | with more than one thread the call renders as `mpirun -n <threads>` followed by the original call |
| Builders.AddedRecords | pypeline/atomiccmd/builder.py:335-338 | one fixed added option per list value, in order |
| Builders.AddOneAppends | pypeline/atomiccmd/builder.py:338 | adding to a key without a singleton appends one record |
| Builders.AddAllAppends | pypeline/atomiccmd/builder.py:334-338 | a list of numbers and strings appends one fixed option per value, in order |
| Builders.AddAllRejects | pypeline/atomiccmd/builder.py:335-337 | a bool, None or other value in a list raises TypeError after the values before it were added |
| Builders.ApplyOneScalars | pypeline/atomiccmd/builder.py:330-347 | a key the predicate refuses is skipped; True and None set the bare option, False pops it, another scalar sets it with that value, a dict or object raises TypeError |
| Builders.ApplyAllKeepsWellFormed | pypeline/atomiccmd/builder.py:329-347 | `apply_options` keeps the option list well formed whatever it raises |
| Builders.AddEach | pypeline/atomiccmd/builder.py:335-338 | the loop over a list does what the specification of the list rule says, stopping at the first error |
| Builders.ApplyItem | pypeline/atomiccmd/builder.py:330-347 | one item changes the builder as the item rule says |
| Builders.ApplyOptions | pypeline/atomiccmd/builder.py:320-347 | the items are applied in order up to the first error, which is returned; only the option list changes |
| AtomicPrettyPrint.LayoutAsWritten | pypeline/atomicpp.py:144-158 | the loop as written always leaves at least one line |
| AtomicPrettyPrint.LayoutOf | pypeline/atomicpp.py:144-158 | the intended layout always has at least one line |
| AtomicPrettyPrint.LineWidthSnoc | pypeline/atomicpp.py:157 | each item adds its length plus two to the width of its line |
| AtomicPrettyPrint.BreakKeepsGood | pypeline/atomicpp.py:152-154 | starting a new line for an item that would not fit keeps the layout greedy, within width and without empty lines |
| AtomicPrettyPrint.ExtendKeepsGood | pypeline/atomicpp.py:155-157 | adding an item that fits to the last line keeps the layout good |
| AtomicPrettyPrint.PlaceKeepsGood | pypeline/atomicpp.py:151-157 | one step of the intended loop keeps the layout good |
| AtomicPrettyPrint.LayoutOfGood | pypeline/atomicpp.py:144-158 | the intended layout keeps every line of two or more items within the width and breaks a line only when the next item would not fit |
| AtomicPrettyPrint.LayoutOfKeepsItems | pypeline/atomicpp.py:149-159 | the intended layout keeps every item, in order |
| AtomicPrettyPrint.LayoutOfMeaning | pypeline/atomicpp.py:144-159 | the intended layout is good, keeps every item in order, and is one empty line exactly for an empty list |
| AtomicPrettyPrint.PlacePreservesItems | pypeline/atomicpp.py:151-157 | each step, intended or as written, appends the item to the flattened lines |
| AtomicPrettyPrint.LayoutAsWrittenKeepsItems | pypeline/atomicpp.py:149-158 | the loop as written also keeps every item in order |
| AtomicPrettyPrint.PrintedLineWidth | pypeline/atomicpp.py:159 | a printed line is its width less the two bracket or separator characters |
| AtomicPrettyPrint.LineWidthCons | pypeline/atomicpp.py:157 | the width of a line is the first item's length plus two plus the width of the rest |
| AtomicPrettyPrint.EmptyListPrints | tests/unit/atomiccmd_test/pprint_test.py:364-365 | the empty list prints as `[]` |
| AtomicPrettyPrint.SingleItemLayouts | tests/unit/atomiccmd_test/pprint_test.py:367-368 | a single item is one line in the intended layout; as written, an item wider than the width leaves an empty first line |
| AtomicPrettyPrint.WrapAsWrittenOverflows | tests/unit/atomiccmd_test/pprint_test.py:374-376 | with width 2, as written `2, 1` share a six-character line, while the intended layout puts each item on its own line as the test expects |
| AtomicPrettyPrint.WrapAsWrittenEmptyFirstLine | pypeline/atomicpp.py:152-154 | as written, a first item wider than the width prints as `[,\n item]`; the intended layout prints it alone on the first line |
| AtomicPrettyPrint.PformatListAsWritten | pypeline/atomicpp.py:144-159 | the loop as written prints the brackets around its lines |
| AtomicPrettyPrint.PformatList | pypeline/atomicpp.py:144-159 | the intended loop prints the brackets around the intended layout |
| AtomicPrettyPrint.AtomsOfAppend | pypeline/atomicpp.py:52-54 | the AtomicCmds of consecutive members are visited in member order |
| AtomicPrettyPrint.Ids | pypeline/atomicpp.py:48 | the identities of the visited AtomicCmds, in order |
| AtomicPrettyPrint.PipesAfterAppend | pypeline/atomicpp.py:49-51 | the pipe table after two runs of AtomicCmds is the second applied after the first |
| AtomicPrettyPrint.PipesAfterUntouched | pypeline/atomicpp.py:49-51 | a command no AtomicCmd reads from keeps its old entry |
| AtomicPrettyPrint.PipesAfterLastReader | pypeline/atomicpp.py:49-51 | a piped command maps to the last AtomicCmd reading from it |
| AtomicPrettyPrint.DistinctSnoc | pypeline/atomicpp.py:45 | a list stays without repeats exactly when the new id is not in it |
| AtomicPrettyPrint.DistinctPrefix | pypeline/atomicpp.py:45 | a prefix of a list without repeats has none |
| AtomicPrettyPrint.CollectStep | pypeline/atomicpp.py:53-54 | one member of the loop extends the order by its AtomicCmds and applies their pipes |
| AtomicPrettyPrint.CollectStats | pypeline/atomicpp.py:44-56 | the walk passes exactly when no AtomicCmd is visited twice (else AssertionError), numbering them in visiting order and recording each pipe to its last reader |
| AtomicPrettyPrint.PformatLines | pypeline/atomicpp.py:162-168 | `pformat`'s text is `<`, the lines joined by newlines, `>`, and the lines can be read back |
| NodeGraphs.Max | pypeline/nodegraph.py:142 | `max` of two states in the order DONE < RUNNING < RUNABLE < QUEUED < OUTDATED < ERROR is one of them and at least both |
| NodeGraphs.Catch | pypeline/nodegraph.py:156-160 | an OSError while asking a node puts it in ERROR; any other exception propagates |
| NodeGraphs.Adjust | pypeline/nodegraph.py:144-160 | a node's own adjustment never lowers the maximum of its children's states |
| NodeGraphs.ChildrenMaxMeaning | pypeline/nodegraph.py:140-142 | the children's maximum exists exactly when every child's state does, is at least each of them, and is DONE or one child's state |
| NodeGraphs.StateNotBelowChildren | pypeline/nodegraph.py:135-163 | a computed state is never below the state of a subnode or dependency |
| NodeGraphs.ChildrenAllDone | pypeline/nodegraph.py:140-142 | the children's maximum is DONE exactly when every child is DONE |
| NodeGraphs.StateRuleIdle | pypeline/nodegraph.py:148-150 | with every child DONE, a node is RUNABLE when not done or outdated, DONE when done and up to date, ERROR on an OSError |
| NodeGraphs.StateRuleBusy | pypeline/nodegraph.py:151-155 | with a RUNNING, RUNABLE or QUEUED child, a node is OUTDATED when done and QUEUED otherwise |
| NodeGraphs.StateRuleMeta | pypeline/nodegraph.py:145-147 | a MetaNode is QUEUED while a child is RUNNING or RUNABLE, else its children's maximum |
| NodeGraphs.StateRuleStuck | pypeline/nodegraph.py:144-155 | OUTDATED and ERROR pass up from a child unchanged |
| NodeGraphs.TableIsStateOf | pypeline/nodegraph.py:135-137 | an entry of a consistent table is the state the rules give for that node |
| NodeGraphs.TableMaxIsChildrenMax | pypeline/nodegraph.py:140-142 | over a consistent table, the maximum of the children's entries is the children's maximum state |
| NodeGraphs.NodeGraph.constructor | pypeline/nodegraph.py:57 | a new graph over the nodes has an empty state table |
| NodeGraphs.NodeGraph.UpdateNodeState | pypeline/nodegraph.py:135-163 | returns the state the rules give, stores it, and only adds entries for the node and the nodes below it |
| NodeGraphs.NodeGraph.UpdateChildren | pypeline/nodegraph.py:140-142 | the loop returns the maximum of the children's states, each computed and stored on the way |
| NodeGraphs.NodeGraph.RefreshStates | pypeline/nodegraph.py:105-112 | keeps only the ERROR and RUNNING entries; it succeeds exactly when the rules give every node a state with those kept, and then every entry is that state, computed against the filesystem given, and the table is valid; a failure is the error the rules raise for some node, and the table is ordered: no RUNABLE or DONE entry has a child that is not DONE |
| NodeGraphs.NodeGraph.RecomputeAll | pypeline/nodegraph.py:110-112 | the loop over every node leaves a complete table consistent with the rules and the kept pins, or fails with the error the rules raise for some node |
| NodeGraphs.RefreshedTable | pypeline/nodegraph.py:105-112 | a complete table consistent with the rules against one filesystem, pinning only RUNNING and ERROR entries, holds for every node the state the rules give, and is ordered |
| NodeGraphs.OrderedWithoutDonePins | pypeline/nodegraph.py:105-112 | a table consistent with the rules whose only pins are RUNNING and ERROR has no RUNABLE or DONE entry above an entry that is not DONE |
| NodeGraphs.OrderedReach | pypeline/nodegraph.py:138-153 | in an ordered table every node below a RUNABLE or DONE node is DONE |
| NodeGraphs.AdjustAboveBusy | pypeline/nodegraph.py:143-153 | when the children's maximum is RUNNING or worse, the rules give QUEUED, OUTDATED or ERROR |
| NodeGraphs.AdjustIdleFromDone | pypeline/nodegraph.py:143-153 | the rules give RUNABLE or DONE only when every child is DONE |
| NodeGraphs.BusyChild | pypeline/nodegraph.py:138-153 | a node computed by the rules while one of its children is RUNNING or worse is QUEUED, OUTDATED or ERROR |
| NodeGraphs.SweepAboveBusy | pypeline/nodegraph.py:65-93 | after a node is set RUNNING or ERROR, every node above it whose state the recomputation changed is QUEUED, OUTDATED or ERROR |
| NodeGraphs.SweepBusy | pypeline/nodegraph.py:65-93 | the same, for all the nodes above the one set at once |
| NodeGraphs.NodeGraph.SetNodeState | pypeline/nodegraph.py:65-93 | a state other than RUNNING, ERROR or DONE raises ValueError and changes nothing; otherwise the node holds the new state (pinned), the nodes below it are unchanged, a node above it is recomputed against the filesystem as it is at the call exactly when the node or a changed node is among its children, the others keep their entries, `changed` holds exactly the nodes above whose state changed, only nodes that depend on the node change, and the table stays valid; when every entry had been computed against that same filesystem, every entry is the state the rules give; a failure is the error raised by recomputing a flagged node above it whose children all have entries; when the state set is RUNNING or ERROR, every other node that changes becomes QUEUED, OUTDATED or ERROR |
| NodeGraphs.NodeGraph.Sweep | pypeline/nodegraph.py:79-93 | the loop over the nodes above the one set keeps the sweep invariant: entries below the current node consistent with the filesystem they were computed against, the flagged ones computed against the current one, the others and the ones not yet visited unchanged |
| NodeGraphs.NodeGraph.Recompute | pypeline/nodegraph.py:83-86 | one flagged node is popped and recomputed from its children's entries against the filesystem as it is now, loses its pin, and the result says whether its state changed; on an exception the entry stays popped |
| NodeGraphs.MaxOfEntries | pypeline/nodegraph.py:140-142 | with every child in the table, the loop returns the maximum of their entries, at least each of them |
| NodeGraphs.ReachFromMeaning | pypeline/nodegraph.py:260-263 | the collected set is each child and everything it depends on |
| NodeGraphs.ReachMeaning | pypeline/nodegraph.py:250-265 | a node's dependencies are its children and theirs, and never the node itself |
| NodeGraphs.CollectDependencies | pypeline/nodegraph.py:250-265 | the table keeps its entries, gains one for each node given, and each entry is that node's full set of dependencies |
| NodeGraphs.ReverseDependencies | pypeline/nodegraph.py:269-275 | a node's reverse dependencies are exactly the nodes that have it as subnode or dependency, all built after it |
| NodeGraphs.TopNodes | pypeline/nodegraph.py:49 | the top nodes are exactly those nothing depends on |
| NodeGraphs.LastNodeIsTop | pypeline/nodegraph.py:49 | the last node built is a top node |
| NodeGraphs.ConsumedFiles | pypeline/nodegraph.py:190-198 | the consumed files are exactly the input and auxiliary files of the nodes |
| NodeGraphs.ClobberedMeaning | pypeline/nodegraph.py:216-222 | two distinct producers is the same as more than one |
| NodeGraphs.CheckFileDependencies | pypeline/nodegraph.py:189-212 | the intended file check raises only NodeGraphError |
| NodeGraphs.NoClobberMeaning | pypeline/nodegraph.py:216-222 | no output is clobbered exactly when each output has one producer |
| NodeGraphs.InputOkMeaning | pypeline/nodegraph.py:229-246 | one consumed file passes exactly when each of its consumers does |
| NodeGraphs.InputsOkMeaning | pypeline/nodegraph.py:226-246 | the inputs pass exactly when every consumer of every file does |
| NodeGraphs.CheckFileDependenciesMeaning | pypeline/nodegraph.py:189-246 | the graph passes exactly when every output has one producer, every consumer of a produced file depends on a producer of it, and every other consumed file exists |
| NodeGraphs.InputErrorsAsWritten | pypeline/nodegraph.py:200-246 | as written, the input check raises only NameError and draws at most ten messages |
| NodeGraphs.InputErrorsAsWrittenMeaning | pypeline/nodegraph.py:229-246 | as written, messages are drawn exactly when some consumed file fails, and NameError only for a produced file whose consumer depends on no producer |
| NodeGraphs.CheckFileDependenciesAsWritten | pypeline/nodegraph.py:189-212 | as written, the file check raises NodeGraphError or NameError |
| NodeGraphs.CheckFileDependenciesAsWrittenAgrees | pypeline/nodegraph.py:189-246 | outside the NameError case, the check as written agrees with the intended one |
| NodeGraphs.UndeclaredDependencyExample | pypeline/nodegraph.py:237-241 | a node reading another node's output without depending on it makes the check as written raise NameError, where the intended check reports NodeGraphError |
| NodeGraphs.CheckRequiredExecutables | pypeline/nodegraph.py:167-176 | passes exactly when every executable of every node exists, else NodeGraphError |
| NodeGraphs.NewNodeGraph | pypeline/nodegraph.py:45-58 | a failing file or executable check raises NodeGraphError; once both pass, the graph is built exactly when the rules give every node a state, and then every entry is that state; any other error is the one the rules raise for some node |
| Pipelines.AddedValuesSnoc | pypeline/pipeline.py:42-44 | `add_nodes` visits the values of each argument coerced to a tuple, argument after argument |
| Pipelines.LeadingNodesMeaning | pypeline/pipeline.py:42-47 | the nodes appended are the leading values that are nodes, all of them exactly when every value is a node, and the first value not appended is not a node |
| Pipelines.LeadingNodesAppend | pypeline/pipeline.py:42-47 | after a run of nodes, appending continues with the next argument |
| Pipelines.Without | pypeline/pipeline.py:129-130 | removing started nodes keeps exactly the others |
| Pipelines.WithoutTwice | pypeline/pipeline.py:129-130 | removing in two steps is removing both at once |
| Pipelines.ThreadSumAppend | pypeline/pipeline.py:113 | the threads in use by two groups of running nodes add up |
| Pipelines.ThreadSumWithout | pypeline/pipeline.py:150-156 | removing finished nodes never raises the threads in use |
| Pipelines.Pypeline.constructor | pypeline/pipeline.py:37-39 | a new pipeline holds no nodes |
| Pipelines.Pypeline.AddNodes | pypeline/pipeline.py:42-47 | appends the leading nodes of the arguments, and passes exactly when every value is a node, else TypeError |
| Pipelines.Pypeline.AddGroup | pypeline/pipeline.py:44-47 | appends one argument's values up to the first that is not a node, raising TypeError there |
| Pipelines.Prepare | pypeline/pipeline.py:50-62 | a NodeGraphError in building the graph, or a node needing more threads than allowed, makes `run` return False; any other error is the one the state rules raise for some node; when both checks pass, every node has a state and every node fits, `run` goes on with a valid graph of the nodes |
| Pipelines.StartNewTasks | pypeline/pipeline.py:111-131 | in the order `remaining` is visited, a node that fits in the idle threads is started exactly when the scan finds it RUNABLE and dropped exactly when found DONE or ERROR; the scan stops only at a node that does not fit when no thread is idle; every node scanned is found in the state it had when the call began, or, when a node the call started lies below it, in QUEUED, OUTDATED or ERROR (`Found`); a started node is RUNNING and a scanned node keeps the state it was found in unless a started node lies below it; the remaining nodes are the others, the result says whether any remain, and the thread budget is never exceeded; a failure is the error raised by recomputing a node above the last one started |
| Pipelines.Scan | pypeline/pipeline.py:114-127 | the loop decides as `ScanOf` does over `remaining` from the idle threads, every node it did not look at comes after the stop, the started and dropped nodes are what it removes, every node scanned is found in its state at the start of the loop unless a started node lies below it, and a started node is RUNNING unless a later start lies below it |
| Pipelines.Launch | pypeline/pipeline.py:119-122 | a started node joins the running ones, adds its threads, is set RUNNING against the filesystem as it is then, every other node that changes depends on it and becomes QUEUED, OUTDATED or ERROR, and the graph stays valid; a failure is the error raised by recomputing a node above it |
| Pipelines.PollRunningNodes | pypeline/pipeline.py:135-162 | the finished nodes leave `running`, the result is False exactly when one of them raised, and the threads in use never rise; each finished node is ERROR when its task raised and DONE otherwise, unless a node finished after it lies below it, and exactly so when no running node lies below another; a failure is the error raised by recomputing a node above a finished one |
| Pipelines.DoneStep | pypeline/pipeline.py:139-156 | polling one more task adds it to the finished ones exactly when it is ready |
| Pipelines.Finish | pypeline/pipeline.py:144-156 | a finished node is set ERROR when it raised and DONE otherwise, against the filesystem as it is then, leaves `running`, only the nodes that depend on it change, and the graph stays valid; a failure is the error raised by recomputing a node above it |
| Pipelines.TrackedNext | pypeline/pipeline.py:116-125 | a scanned node is started when RUNABLE, settled when DONE or ERROR, and otherwise kept |
| Pipelines.ScanOne | pypeline/pipeline.py:115-126 | one pass of the loop reads the node's state from the table as it is, decides as `ScanNext` does and keeps the scan's invariant; a start changes only nodes above the node started, each to QUEUED, OUTDATED or ERROR, and anything else changes nothing |
| Pipelines.ScanOneFound | pypeline/pipeline.py:115-122 | one pass records the node in the state the table holds for it then, and keeps every node found as `Found` says and every node moved as `Moved` says |
| Pipelines.ScanLoop | pypeline/pipeline.py:114-127 | the loop ends at the last node or at the stop with the scan's invariant, having found and moved nodes only as `Found` and `Moved` say relative to the table at its start; a failure is the error raised by recomputing a node above the last one started |
| Pipelines.MovedStep | pypeline/pipeline.py:119-122 | starting a node changes only nodes above it, to QUEUED, OUTDATED or ERROR, so every node other than those started that differs from the table the scan began from lies above a started node |
| Pipelines.FoundStep | pypeline/pipeline.py:116-117 | the next node scanned, not started yet, is found in its state at the start of the scan unless a started node lies below it, when it is QUEUED, OUTDATED or ERROR |
| Pipelines.FoundFinal | pypeline/pipeline.py:116-122 | every node started was RUNABLE in the table the scan began from; when that table is ordered, as `refresh_states` leaves it, no node started lies below another |
| Pipelines.ScanOfSound | pypeline/pipeline.py:113-126 | the scan starts only nodes found RUNABLE and drops only nodes found DONE or ERROR, the idle threads are the initial ones less those started, and it stops only with no thread idle at a node that needs one |
| Pipelines.ScanOfStartsFitting | pypeline/pipeline.py:115-122 | a scanned RUNABLE node that was not started came after the stop or needs more threads than are idle at the end |
| Pipelines.ScanOfDropsFitting | pypeline/pipeline.py:115-124 | a scanned DONE or ERROR node that was not dropped came after the stop or needs more threads than are idle at the end |
| Pipelines.ScanStopsAt | pypeline/pipeline.py:125-126 | after the `break` the nodes not looked at change nothing and all come after the stop |
| Pipelines.ScanOfStoppedPrefix | pypeline/pipeline.py:125-126 | once the scan has stopped, later nodes change nothing |
| Pipelines.KeptMoves | pypeline/pipeline.py:121 | setting a node keeps every other node in its state unless it depends on a node set |
| Pipelines.KeptAfterLaunch | pypeline/pipeline.py:117-122 | starting one more node keeps the states found and the RUNNING nodes, with that node among those set |
| Pipelines.KeptAfterFinish | pypeline/pipeline.py:144-156 | finishing one more node keeps the finished nodes' new states, with that node among those set |
| Pipelines.KeptUnnested | pypeline/pipeline.py:144-156 | with no running node above another, every finished node holds its new state |
| Pipelines.PollOne | pypeline/pipeline.py:139-156 | one pass of the loop sets a finished node and removes it, records whether it raised, and keeps every finished node's new state |
| NodeGraphs.SweepReach | pypeline/nodegraph.py:65-93 | after the recomputation only nodes that depend on the node set have a new state |
| Makefile.ApplyDefaults | pypeline/common/makefile.py:58-68 | defaults apply only between two dicts, else MakefileError; the result has the keys of both |
| Makefile.Merge | pypeline/common/makefile.py:62-68 | a key only in the defaults takes the default, a key whose two values are not both dicts keeps the makefile's value |
| Makefile.MergeNested | pypeline/common/makefile.py:65-66 | where both sides hold a dict, the defaults are applied to it recursively |
| Makefile.ApplyDefaultsIdempotent | pypeline/common/makefile.py:58-68 | applying the makefile's defaults a second time changes nothing |
| Makefile.ApplyDefaultsToEmpty | pypeline/common/makefile.py:58-68 | empty defaults give back the makefile itself |
| Makefile.MakeOr | pypeline/common/makefile.py:100-102 | `Or()` with no function raises ValueError |
| Makefile.MakeIsListOf | pypeline/common/makefile.py:165-166 | `IsListOf()` with no function is refused |
| Makefile.MakeIsInRange | pypeline/common/makefile.py:208-209 | `IsInRange` asserts that the minimum is below the maximum |
| Makefile.MakeOneOf | pypeline/common/makefile.py:120-121 | `OneOf`'s assertion fails exactly when `case_sensitive` comes with another keyword |
| Makefile.OneOfKeywordCheckAsWritten | pypeline/common/makefile.py:121 | as written, a keyword other than `case_sensitive`, given alone, passes the assertion |
| Makefile.MakeOneOfStrict | pypeline/common/makefile.py:121 | the intended assertion refuses every keyword but `case_sensitive` |
| Makefile.OneOfStrictAgrees | pypeline/common/makefile.py:121 | the two assertions agree whenever `case_sensitive` is given |
| Makefile.MakeIsStrWithPrefix | pypeline/common/makefile.py:236-237 | `IsStrWithPrefix` asserts a non-empty prefix |
| Makefile.MakeAnyOf | pypeline/common/makefile.py:137-149 | a keyword other than case_sensitive, min_items and max_items raises RuntimeError, and only then; otherwise the validator holds the arguments and the case flag, and each bound is `int` of the given value or defaults to zero and the number of choices; a bound `int` refuses raises its ValueError (a string) or TypeError (anything else), the lower bound first |
| Utilities.IntOf | pypeline/common/makefile.py:145-146 | `int(v)` succeeds exactly where the cast gives an integer, with that integer; it raises ValueError for a string and TypeError otherwise |
| Makefile.LowerAll | pypeline/common/makefile.py:128-129 | case-insensitive choices are each lower-cased, in order |
| Makefile.RunMeansAccepts | pypeline/common/makefile.py:93-248 | every validator passes exactly the values it accepts and raises nothing but MakefileError |
| Makefile.RunDictMeansAccepts | pypeline/common/makefile.py:177-189 | `IsDictOf` passes exactly a dict whose keys and values all pass their checks |
| Makefile.RunLeafMeansAccepts | pypeline/common/makefile.py:192-248 | the type, range, prefix and None checks pass exactly the values they describe |
| Makefile.RunAllMeansAll | pypeline/common/makefile.py:93-97 | `And` passes exactly when every function does |
| Makefile.RunAnyMeansSome | pypeline/common/makefile.py:106-117 | `Or` passes exactly when some function does |
| Makefile.RunItemsMeansAll | pypeline/common/makefile.py:167-174 | `IsListOf` passes a list exactly when each item passes one of the functions |
| Makefile.RunEntriesMeansAll | pypeline/common/makefile.py:182-189 | the dict check passes exactly when every key and value passes |
| Makefile.IsIntRejectsBooleans | pypeline/common/makefile.py:192-195 | `IsInt` refuses booleans and accepts integers |
| Makefile.CliItemAccepts | pypeline/common/makefile.py:262 | a command-line list item is a string, an integer or a float |
| Makefile.CliScalarAccepts | pypeline/common/makefile.py:263 | a command-line scalar is a string, an integer, a float or None |
| Makefile.CliListAccepts | pypeline/common/makefile.py:262 | a command-line list holds only strings, integers and floats |
| Makefile.CliParametersAccept | pypeline/common/makefile.py:262-263 | `CLI_PARAMETERS` accepts exactly those scalars and lists of them |
| Makefile.ValidateMeansConforms | pypeline/common/makefile.py:72-90 | `validate_makefile` passes exactly the makefiles that conform to the reference, and raises only MakefileError |
| Makefile.ValidateKeysMeansAll | pypeline/common/makefile.py:76-87 | a dict passes exactly when each key is known literally or passes the first callable key, and its value conforms |
| Makefile.UnknownKeyRejected | pypeline/common/makefile.py:83-85 | a key that no literal or callable key matches raises MakefileError |
| Versions.CastGroup | pypeline/common/versions.py:96-104 | a missing group stays None, a group that reads as an integer becomes that integer, any other stays a string |
| Versions.FieldLessTotal | pypeline/common/versions.py:153-178 | two different version fields are always ordered one way or the other |
| Versions.FieldLessAsymmetric | pypeline/common/versions.py:153-178 | version fields are never ordered both ways |
| Versions.VersionTrichotomy | pypeline/common/versions.py:153-178 | of two version tuples exactly one is below, equal to or above the other |
| Versions.RunMeansSatisfies | pypeline/common/versions.py:139-225 | calling a check raises only VersionRequirementError or TypeError and passes only versions that satisfy it; for a check with no non-empty `And`/`Or` inside an `And` it passes exactly those versions and raises only VersionRequirementError |
| Versions.RunAndMeansAll | pypeline/common/versions.py:191-198 | the loop of `And` passes only when every check is satisfied, propagates a member's TypeError, and for well-nested members passes exactly when every check is satisfied, raising VersionRequirementError otherwise |
| Versions.RunOrMeansSome | pypeline/common/versions.py:214-222 | the loop of `Or` passes only when some check is satisfied, goes on only past VersionRequirementError, and for well-nested members passes exactly when some check is satisfied |
| Versions.NestedAndRaises | pypeline/common/versions.py:191-201 | an `And` nested in an `And` raises TypeError although the version satisfies both |
| Versions.GEAndLTComplementary | pypeline/common/versions.py:153-178 | for one bound, exactly one of `GE` and `LT` passes a version |
| Versions.FieldStrs | pypeline/common/versions.py:252-253 | each field is printed by `str`, in order |
| Versions.PprintDefault | pypeline/common/versions.py:251-253 | the default printing starts with "v" |
| Versions.PprintDefaultRoundTrip | pypeline/common/versions.py:251-253 | the default printing of an all-integer version can be read back to the same version |
| Versions.RequirementObj.constructor | pypeline/common/versions.py:82-89 | a new requirement holds its call, name and check, with no version and not yet done |
| Versions.RequirementObj.Version | pypeline/common/versions.py:92-104 | the version is computed once and then kept; no match raises VersionRequirementError and keeps nothing; otherwise each group is cast |
| Versions.RequirementObj.Call | pypeline/common/versions.py:107-111 | without `force` a requirement that passed once passes again untouched; otherwise it passes only when the version satisfies the check (exactly then for a well-nested check), and only passing sets `done` |
| Versions.AndOrKeysCollide | pypeline/common/versions.py:181-184 | as written, an `And` and an `Or` of the same checks describe themselves alike, though they accept different versions |
| Versions.KeyInjective | pypeline/common/versions.py:115-130 | with a tag of its own for `And`, equal descriptions mean equal checks |
| Versions.RequirementCache.constructor | pypeline/common/versions.py:38 | the requirement cache starts empty |
| Versions.RequirementCache.Requirement | pypeline/common/versions.py:41-79 | an equal key returns the cached requirement and changes nothing; a new key with no name and an empty call raises IndexError and caches nothing; otherwise a fresh, not yet done requirement for the check, named by the name or else the call's first element, is cached; the key is the intended one with a tag of its own for `And` (see Findings) |
| BamPipeline.Reach | pypeline/tools/bam_pipeline/pipeline.py:292-308 | the nodes reachable through subnodes and dependencies lie below the nodes they are reached from |
| BamPipeline.WalkCalls | pypeline/tools/bam_pipeline/pipeline.py:292-308 | `func` is called at most once per node, never on a skipped node, only on reachable nodes; the skip set grows only by nodes `func` was called on, by all of them when the walk completes |
| BamPipeline.WalkStops | pypeline/tools/bam_pipeline/pipeline.py:298-307 | the walk stops at the first node `func` refuses, and returns False exactly then |
| BamPipeline.StopsAfter | pypeline/tools/bam_pipeline/pipeline.py:298-307 | accepted calls before a walk that stops keep it stopping at the same place |
| BamPipeline.StopsAccepted | pypeline/tools/bam_pipeline/pipeline.py:308 | a walk that returns True accepted every call |
| BamPipeline.WalkCloses | pypeline/tools/bam_pipeline/pipeline.py:301-306 | a completed walk leaves every node given, and everything below each, in the skip set |
| BamPipeline.ReachInClosed | pypeline/tools/bam_pipeline/pipeline.py:301-306 | a skip set closed under subnodes and dependencies that holds the nodes holds all they reach |
| BamPipeline.WalkVisitsReachable | pypeline/tools/bam_pipeline/pipeline.py:292-308 | from an empty skip set `func` is called once on each node it reaches, and on exactly the reachable nodes when it refuses none |
| BamPipeline.WalkAccepting | pypeline/tools/bam_pipeline/pipeline.py:311-317 | a `func` that always returns True is called on every reachable node |
| BamPipeline.Walker.constructor | pypeline/tools/bam_pipeline/pipeline.py:293-294 | a walk starts with an empty skip set and no calls |
| BamPipeline.Walker.WalkNodes | pypeline/tools/bam_pipeline/pipeline.py:292-308 | the loop returns what the recursive walk returns, leaves its skip set, and makes its calls in order |
| BamPipeline.Walker.WalkNode | pypeline/tools/bam_pipeline/pipeline.py:297-306 | one node is skipped when seen, otherwise `func` is called on it and, unless refused, its subnodes and then its dependencies are walked |
| BamPipeline.WalkCons | pypeline/tools/bam_pipeline/pipeline.py:296-308 | a walk of several nodes is the walk of the first followed, when it completes, by the walk of the rest |
| BamPipeline.WalkInto | pypeline/tools/bam_pipeline/pipeline.py:300-306 | walking into a node calls `func` on it, then walks its subnodes and its dependencies |
| BamPipeline.OutputsOfAdd | pypeline/tools/bam_pipeline/pipeline.py:313-314 | collecting one more node adds its absolute output paths |
| BamPipeline.ListOutputFiles | pypeline/tools/bam_pipeline/pipeline.py:311-319 | the output files listed are the absolute output paths of every node reachable from those given |
| BamPipeline.CollectOutputFiles | pypeline/tools/bam_pipeline/pipeline.py:313-315 | collecting along the calls gives the outputs of the nodes called on |
| BamPipeline.Config.constructor | pypeline/tools/bam_pipeline/pipeline.py:178-186 | the options hold the targets named on the command line |
| BamPipeline.BuildPipelineTargets | pypeline/tools/bam_pipeline/pipeline.py:178-186 | returns the nodes of every target that names a key, and leaves in the options exactly the targets that name none |
| BamPipeline.SelectedAdd | pypeline/tools/bam_pipeline/pipeline.py:182-185 | one more target adds its key's nodes when it names a key and otherwise stays unmatched |
| BamPipeline.TargetsPartition | pypeline/tools/bam_pipeline/pipeline.py:178-186 | a target stays exactly when it names no key, and every node returned comes from a target that names a key |
| BamPipeline.ShowLength | pypeline/tools/bam_pipeline/pipeline.py:169-171 | only the seven listed kinds have a key length |
| BamPipeline.TargetsForMeaning | pypeline/tools/bam_pipeline/pipeline.py:167-175 | an unknown kind raises KeyError; otherwise the keys listed are those of its length that are trimming keys exactly for "trimming" |
| BamPipeline.TargetsForAgree | pypeline/tools/bam_pipeline/pipeline.py:173-175 | the code as written lists the same keys for every kind but "targets" |
| BamPipeline.ListTargetsRaises | pypeline/tools/bam_pipeline/pipeline.py:173-174 | as written, listing the targets of a makefile raises IndexError on the one-element target key, where the target should be listed |
| BamMakefile.PrefixNameCheckAsWritten | pypeline/tools/bam_pipeline/makefile.py:47-55 | as written, the title-cased name is refused when it is reserved or holds white-space, always with MakefileError |
| BamMakefile.TitleNeverReadsForm | pypeline/tools/bam_pipeline/makefile.py:48-50 | a title-cased name is never "SingleReads", "CollapsedReads" or "PairedReads", so the check as written can never refuse those |
| BamMakefile.TitledReserved | pypeline/tools/bam_pipeline/makefile.py:48-51 | as written, only "Single", "Collapsed", "Paired" and "Options" can be refused |
| BamMakefile.AsWrittenAcceptsMeaning | pypeline/tools/bam_pipeline/makefile.py:47-55 | as written, a name is accepted exactly when it has no white-space and, title-cased, is not Single, Collapsed, Paired or Options |
| BamMakefile.AsWrittenAcceptsLongNames | pypeline/tools/bam_pipeline/makefile.py:47-55 | as written, every eleven-character name without white-space is accepted, since no reserved name of that length survives title-casing |
| BamMakefile.ReadsPrefixAccepted | pypeline/tools/bam_pipeline/makefile.py:48-51 | as written, "SingleReads" is accepted as a prefix name |
| BamMakefile.PrefixNameCheck | pypeline/tools/bam_pipeline/makefile.py:47-55 | the intended check refuses a name exactly when it is, ignoring case, one of the seven reserved names, or holds white-space |
| BamMakefile.TitleKeepsLowerAndSpace | pypeline/tools/bam_pipeline/makefile.py:48 | title-casing keeps the lower-cased form and the white-space of a name |
| BamMakefile.PrefixNameCheckStronger | pypeline/tools/bam_pipeline/makefile.py:47-55 | every name refused as written is refused by the intended check, which refuses all seven reserved names |
| BamMakefile.ReadsPrefixRefused | pypeline/tools/bam_pipeline/makefile.py:48-51 | the intended check refuses "SingleReads" |
| BamMakefile.MapResults | pypeline/tools/bam_pipeline/makefile.py:211-212 | visiting every entry of a level succeeds exactly when each entry does, keeping the keys; a failure is some entry's failure |
| BamMakefile.MapOverMeaning | pypeline/tools/bam_pipeline/makefile.py:205-208 | visiting the listed keys succeeds exactly when each does, and yields each key's result |
| BamMakefile.OverrideMeaning | pypeline/tools/bam_pipeline/makefile.py:201-202 | a level's own options apply over the inherited ones: its values win unless both sides are dicts, the others are inherited, and a non-dict raises MakefileError |
| BamMakefile.UpdateOptionsMeaning | pypeline/tools/bam_pipeline/makefile.py:199-213 | after the update the targets, samples and libraries are the same, targets and samples hold no options, and each library holds the options merged down its path |
| BamMakefile.TargetOptionsMeaning | pypeline/tools/bam_pipeline/makefile.py:200-210 | one target's samples and libraries are kept, and each library gets the options merged down its path |
| BamMakefile.SampleOptionsMeaning | pypeline/tools/bam_pipeline/makefile.py:200-210 | one sample's libraries are kept, each with its own options merged over the sample's |
| BamMakefile.LibraryOptionsPrecedence | pypeline/tools/bam_pipeline/makefile.py:199-213 | a non-dict option set at the library wins; an option no level sets keeps the makefile's value |
| BamMakefile.ClassifyMeaning | pypeline/tools/bam_pipeline/makefile.py:265-275 | a path is a raw lane, a dict of read types trimmed reads, a dict of prefixes BAM files, and any other dict a MakefileError |
| BamMakefile.UpdateLanesErrors | pypeline/tools/bam_pipeline/makefile.py:257-279 | the lane update raises only MakefileError, or KeyError for a library without options |
| BamMakefile.TargetLanesErrors | pypeline/tools/bam_pipeline/makefile.py:259-279 | one target's lanes raise only MakefileError or KeyError |
| BamMakefile.SampleLanesErrors | pypeline/tools/bam_pipeline/makefile.py:260-279 | one sample's lanes raise only MakefileError or KeyError |
| BamMakefile.LibraryLanesErrors | pypeline/tools/bam_pipeline/makefile.py:261-279 | one library's lanes raise only MakefileError or KeyError |
| BamMakefile.UpdateLanesMeaning | pypeline/tools/bam_pipeline/makefile.py:257-279 | after the update each lane is a record of its type, its data and its library's options |
| BamMakefile.LibraryLanesMeaning | pypeline/tools/bam_pipeline/makefile.py:262-279 | one library's lanes become records of type, data and the library's options |
| BamMakefile.Lookup | pypeline/tools/bam_pipeline/makefile.py:295-296 | indexing a makefile value succeeds exactly on a dict holding the key; a non-dict raises TypeError and a missing key KeyError |
| BamMakefile.TagsOfMeaning | pypeline/tools/bam_pipeline/makefile.py:286-297 | a lane gets tags exactly when its options name the aligner program and the platform; they name its target, sample, library as ID and LB, and barcode as PU_src and PU_cur |
| BamMakefile.UpdateTagsMeaning | pypeline/tools/bam_pipeline/makefile.py:282-299 | every lane keeps its type, data and options and gains its tags |
| BamMakefile.Pad3 | pypeline/tools/bam_pipeline/makefile.py:319 | the index is written with at least three digits |
| BamMakefile.LeadingZeros | pypeline/tools/bam_pipeline/makefile.py:319 | leading zeros do not change the number a numeral reads as |
| BamMakefile.Pad3Value | pypeline/tools/bam_pipeline/makefile.py:319 | the padded numeral reads back as the index |
| BamMakefile.SplitNameInjective | pypeline/tools/bam_pipeline/makefile.py:319 | two parts of a lane get the same barcode exactly when they have the same index |
| BamMakefile.PartsFromMeaning | pypeline/tools/bam_pipeline/makefile.py:316-325 | one part per row of files, named by the row's number from 1, with PU_cur set to that name and otherwise the lane's type, options and tags |
| BamMakefile.PartsDistinct | pypeline/tools/bam_pipeline/makefile.py:316-325 | the parts of a split lane have distinct barcodes |
| BamMakefile.SplitParts | pypeline/tools/bam_pipeline/makefile.py:316-327 | the loop over the rows of files builds exactly the parts described above |
| BamMakefile.SplitKeys | pypeline/tools/bam_pipeline/makefile.py:313 | a lane is split by its single-end files or by both mates |
| BamMakefile.SplitLaneMeaning | pypeline/tools/bam_pipeline/makefile.py:302-327 | a lane not split keeps its barcode; a split raw lane becomes one part per row with distinct barcodes "<barcode>_001", "<barcode>_002", ... |
| BamMakefile.SamplesOfAdd | pypeline/tools/bam_pipeline/makefile.py:340-342 | one more lane adds its sample to its target's and library's set |
| BamMakefile.CollectSamples | pypeline/tools/bam_pipeline/makefile.py:340-342 | the loop collects the samples of every library of every target |
| BamMakefile.AnySpanning | pypeline/tools/bam_pipeline/makefile.py:344-345 | the check finds a library with more than one sample exactly when one exists |
| BamMakefile.ValidateLibraries | pypeline/tools/bam_pipeline/makefile.py:339-347 | a makefile fails, with MakefileError, exactly when some library of a target spans two samples |
| BamMakefile.SpansSamplesOf | pypeline/tools/bam_pipeline/makefile.py:339-347 | a library spans samples exactly when more than one sample is collected for it |
| BamMakefile.AddTargets | pypeline/tools/bam_pipeline/makefile.py:382-386 | one makefile's targets fail exactly when one was seen before, and are otherwise all added |
| BamMakefile.ValidateDuplicateTargets | pypeline/tools/bam_pipeline/makefile.py:380-386 | the makefiles fail, with MakefileError, exactly when two of them name the same target |
| BamMakefile.RepeatsTargetSnoc | pypeline/tools/bam_pipeline/makefile.py:381-386 | one more makefile repeats a target exactly when the earlier ones did or it names one of theirs |
| PhyloMakefile.LeavesMeaning | pypeline/tools/phylo_pipeline/makefile.py:77-94 | the taxa of a tree are exactly its leaves, found through any depth of "<group>" keys |
| PhyloMakefile.LeavesOfMeaning | pypeline/tools/phylo_pipeline/makefile.py:80-88 | the taxa under some keys are the leaves under each of them |
| PhyloMakefile.ValidateTaxaMeaning | pypeline/tools/phylo_pipeline/makefile.py:123-138 | a tree that validates is a dict, and the names seen grow by the lower-cased names of all its leaves, one new name per leaf |
| PhyloMakefile.ValidateEntriesNames | pypeline/tools/phylo_pipeline/makefile.py:131-138 | validating some keys adds the lower-cased names of the leaves under them |
| PhyloMakefile.ValidateKeyNames | pypeline/tools/phylo_pipeline/makefile.py:132-138 | a group key adds its leaves' names, a taxon its own lower-cased name |
| PhyloMakefile.ValidateEntriesCount | pypeline/tools/phylo_pipeline/makefile.py:134-138 | each leaf validated adds one new name, so no taxon is named twice regardless of case |
| PhyloMakefile.ValidateKeyCount | pypeline/tools/phylo_pipeline/makefile.py:132-138 | a taxon adds exactly one name, a group as many as its leaves |
| PhyloMakefile.WithName | pypeline/tools/phylo_pipeline/makefile.py:86 | naming a taxon succeeds exactly on a dict, which then also holds its name |
| PhyloMakefile.CollectTaxaOk | pypeline/tools/phylo_pipeline/makefile.py:77-94 | the taxa tree collapses exactly when every group and taxon in it is a dict |
| PhyloMakefile.CollectEntriesOk | pypeline/tools/phylo_pipeline/makefile.py:80-88 | the entries of one level collapse exactly when each of them does |
| PhyloMakefile.CollectTaxaLeaves | pypeline/tools/phylo_pipeline/makefile.py:77-94 | the taxa collected are the leaves of the tree |
| PhyloMakefile.CollectEntriesLeaves | pypeline/tools/phylo_pipeline/makefile.py:80-88 | one level adds the leaves under its keys to the taxa collected so far |
| PhyloMakefile.CollectTaxaNamed | pypeline/tools/phylo_pipeline/makefile.py:85-91 | every taxon collected holds its own name, and the taxa are recorded as the group of the level's path |
| PhyloMakefile.CollectEntriesNamed | pypeline/tools/phylo_pipeline/makefile.py:85-91 | the taxa collected at one level are named and recorded under its path |
| PhyloMakefile.CollectTaxaFrame | pypeline/tools/phylo_pipeline/makefile.py:77-94 | collapsing records groups only at or below the level's path and keeps every other group |
| PhyloMakefile.CollectEntriesFrame | pypeline/tools/phylo_pipeline/makefile.py:80-91 | one level keeps the groups recorded elsewhere |
| PhyloMakefile.CollectTaxaBelow | pypeline/tools/phylo_pipeline/makefile.py:77-94 | every group recorded holds named leaves of the tree |
| PhyloMakefile.CollectEntriesBelow | pypeline/tools/phylo_pipeline/makefile.py:80-91 | the groups recorded for one level hold named leaves under it |
| PhyloMakefile.CollectTaxaGroupKeys | pypeline/tools/phylo_pipeline/makefile.py:82-84 | every group key of a level is recorded under its path with the brackets stripped |
| PhyloMakefile.CollectEntriesGroupKeys | pypeline/tools/phylo_pipeline/makefile.py:82-84 | each group key visited is recorded under its bracket-stripped name |
| PhyloMakefile.CollapseMeaning | pypeline/tools/phylo_pipeline/makefile.py:77-94 | the whole collapse: the taxa are the leaves, each named; the top group is the taxa; every group holds named taxa; every top-level group has its group |
| PhyloMakefile.Expand | pypeline/tools/phylo_pipeline/makefile.py:109-119 | a filter entry that cannot be expanded raises MAKEFileError |
| PhyloMakefile.ExpandGroupPath | pypeline/tools/phylo_pipeline/makefile.py:109-114 | "<a/b>" expands to the taxa of the group at path (a, b), and raises MAKEFileError when there is none |
| PhyloMakefile.ExpandTaxon | pypeline/tools/phylo_pipeline/makefile.py:116-119 | a plain name expands to itself exactly when it is a taxon |
| PhyloMakefile.ExpandAllMeaning | pypeline/tools/phylo_pipeline/makefile.py:108-119 | a filter expands exactly when each entry does, to the union of their expansions |
| PhyloMakefile.ExpandAllWithinTaxa | pypeline/tools/phylo_pipeline/makefile.py:108-119 | when every group holds taxa, a filter expands to taxa only |
| PhyloMakefile.FilterTargetsMeaning | pypeline/tools/phylo_pipeline/makefile.py:107-119 | each target visited gets its filter's expansion and the others are kept |
| PhyloMakefile.FilteringMeaning | pypeline/tools/phylo_pipeline/makefile.py:103-120 | the filtering has one entry per target, the expansion of its filter, succeeds exactly when every filter expands, and then names taxa only |
| PhyloMakefile.CollapsedFilteringNamesTaxa | pypeline/tools/phylo_pipeline/makefile.py:103-120 | after the collapse every filter names taxa only, and "<name>" of each top-level group is accepted |
| PhyloMakefile.TaxaCollector.constructor | pypeline/tools/phylo_pipeline/makefile.py:78 | the collapse starts with no groups |
| PhyloMakefile.TaxaCollector.Collect | pypeline/tools/phylo_pipeline/makefile.py:79-91 | the recursive collector returns the taxa of the tree and records the groups the collapse describes |
| PhyloMakefile.ExpandEntries | pypeline/tools/phylo_pipeline/makefile.py:108-119 | the loop over a filter's entries computes its expansion |
| PhyloMakefile.NamedUpToStep | pypeline/tools/phylo_pipeline/makefile.py:99-100 | naming one more interval keeps the earlier ones named |
| PhyloMakefile.NameIntervals | pypeline/tools/phylo_pipeline/makefile.py:97-100 | every interval gets its own key as name; an interval that is not a dict raises TypeError |
| PhyloMakefile.FilterAll | pypeline/tools/phylo_pipeline/makefile.py:106-120 | the loop over the targets computes the filtering |
| PhyloMakefile.UnknownGroups | pypeline/tools/phylo_pipeline/makefile.py:67 | the unknown groups are the excluded groups that are not taxa |
| PhyloMakefile.PhyloMakefile.constructor | pypeline/tools/phylo_pipeline/makefile.py:57-72 | a makefile holds its taxa tree, intervals, singleton filters, padding, random options and excluded groups |
| PhyloMakefile.PhyloMakefile.CollapseTaxa | pypeline/tools/phylo_pipeline/makefile.py:77-94 | on success the taxa are the collapsed taxa and the groups all but the top one; a failure changes nothing; nothing else changes |
| PhyloMakefile.PhyloMakefile.UpdateIntervals | pypeline/tools/phylo_pipeline/makefile.py:97-100 | every interval is named by its key, or TypeError; nothing else changes |
| PhyloMakefile.PhyloMakefile.UpdateFiltering | pypeline/tools/phylo_pipeline/makefile.py:103-120 | the filtering becomes the expansion of the singleton filters against the taxa and groups; nothing else changes |
| PhyloMakefile.PhyloMakefile.Mangle | pypeline/tools/phylo_pipeline/makefile.py:57-72 | passes exactly when the taxa collapse, the intervals are dicts, the filters expand and every excluded group is a taxon; then holds the collapsed taxa, named intervals, the filtering, no nodes and the padding copied into the random options |

## Left out

- **Processes and concurrency.** The model leaves out the `multiprocessing` pool, `apply_async`, the sleep and backoff polling loops (`pypeline/pipeline.py`, `pypeline/atomicset.py`), KeyboardInterrupt handling and signal setup. Starting a node and joining a command are single deterministic steps, and a finished node's outcome and a process's return code are inputs.
- **Pipelines.PollRunningNodes:** makes one pass over results that are given as input. It does not wait in the source's sleep loop. The filesystem is one parameter for the whole pass, so files that change between two finished nodes of one pass are not modelled.
- **Pipelines.StartNewTasks:** `remaining` is a Python set. The model takes it as a sequence in the order the loop visits it and does not fix that order. A node started or found in a state stays in that state only until a later node below it is started; the model states this as `Kept` rather than claiming the state is final. Likewise `Found` says that a node found in a state other than its state at the start of the call has a started node below it. It does not say that this node was started before the scan reached the other.
- **Pipelines.PollRunningNodes (nesting):** a finished node can be recomputed when another finished node below it is set later in the same pass. Its exact new state is therefore proved only when no running node lies below another (`Unnested`). `FoundFinal` proves this for the nodes one call of `StartNewTasks` starts from an ordered table. That nodes started in different rounds of `run` are unnested is not proved.
- **Pipelines.StartNewTasks (nesting):** that no node started lies below another is proved only when the table the call begins from is `Ordered`, as `refresh_states` leaves it (`RefreshStates`, `FoundFinal`). The model does not prove that the rounds of `run` keep the table ordered. A DONE pin below which a node is not DONE would let a RUNABLE node sit above another RUNABLE one, and the source would then start both.
- **The main loop of `Pypeline.run`.** The model leaves out the loop itself, `dry_run`, `collapse` and the `ui` progress printing. Only its thread check and the start and poll steps are modelled.
- **Real filesystem.** The filesystem is a map from path to entry. The model leaves out `move_file`, `copy_file`, `open_ro` (with its gzip and bz2 sniffing), `try_remove`, uuid-named temporary directories, `os.symlink`, `mkfifo` and the error-log writer `Node._write_error_log`. Directory listings and file contents are inputs.
- **FileUtils.Disk.CreateTempDir:** takes the candidate names as a parameter instead of drawing uuids.
- **Pickle probes.** `fast_pickle_test` and the picklability checks in the node constructor are runtime serialisation probes, and the model leaves them out. `crc32` hashes with zlib and is also left out.
- **Version probing.** The model leaves out the subprocess call and the module-level call cache in `versions.py` (`_run`, `_do_call`). The text that the search regex extracts is an input.
- **NodeGraphs.CheckRequiredExecutables:** checks only that the executables exist. It does not call each node's version requirements, so it does not model the `NodeGraphError` that wraps a failing requirement (`pypeline/nodegraph.py:177-186`).
- **NodeGraphs.NodeGraph.SetNodeState:** recomputes the affected states in one sweep in ascending node order, children before parents. The source instead runs a worklist driven by per-node intersection counts (`_calculate_intersections`), which is not modelled; the visiting order is not claimed to be the same. The filesystem is a parameter of each call: a recomputed node asks it afresh, while entries that are not recomputed keep the state computed against the filesystem of an earlier call, as in the source.
- **Versions.RequirementCache.Requirement:** caches under the intended key `Key`, which tags an `And` as "And". The source tags it "Or", so an `And` and an `Or` of the same checks share a cache entry; that key is `Versions.KeyAsWritten`, and the collision is listed under Findings.
- **Nodes.Teardown:** models the intended teardown of a command node, reading the temporary files from every AtomicCmd of a command set. The source as written reads them from the set itself and raises AttributeError; that behaviour is `Nodes.TeardownAsWritten`, and the discrepancy is listed under Findings.
- **AtomicCmd itself.** The base command class `pypeline/atomiccmd/command.py` is not part of this model. Only its interface is modelled: file sets, temporary files, return codes, and run, join, ready, commit and terminate. The constructor's validation of its arguments is left out.
- **Builders.** The `kwargs` property, which finalizes builders nested in keyword arguments, is not modelled. An option joined to its value by a separator is kept as a symbolic token (key, separator, value) instead of the formatted string.
- **AtomicPrettyPrint.Pformat:** models only the final join of the printed lines. Rendering a command's lines is left out: `_pformat`, `_describe_cls`, and `_build_status`, `_build_stdin`, `_build_stdout`, `_build_stderr` and `_build_cwd` all print details of `AtomicCmd`, which is not part of this model.
- **Dictionary order.** Where the source iterates over a Python dict, the model iterates in sorted key order.
- **Makefiles are values.** A makefile is a value, not a shared dict. Partial in-place updates made before an exception are not captured, and neither is aliasing between the phylo makefile's taxa and its groups.
- **Makefile I/O.** Reading a makefile (`read_makefile`, YAML parsing) is left out. The parsed makefile is an input.
- **BamPipeline.TargetsFor:** returns the set of targets to list. The source prints them one per line in sorted order, and that printed text is not modelled.
- **BAM makefile steps not modelled.** The model leaves out `_update_prefixes`, which globs the file system and looks up references, and `_validate_makefiles_duplicate_files`, which resolves real paths. The BAM pipeline's typed datatypes assume the shape that validation guarantees. Assembling a library from its split lanes is left to the domain nodes.
- **PhyloMakefile.ValidateTaxa:** takes the validation table for one taxon as a parameter instead of the module constant `_TAXA_VALIDATION`.
- **PhyloMakefile.PhyloMakefile.UpdateFiltering:** keeps the singleton filters and the expanded filtering as two fields. The source overwrites one dict entry.
- **VcfBuffer.VCFBuffer.RebufferMethod:** covers the `max_size` buffer policy only. `max_window` is not modelled.
- **VCF line fields.** The model does not split fields or strip lines, and it does not model the VCF record accessors or `__str__`. A VCF line is kept as an opaque string and a variant as its parsed fields.
- **Regular expressions.** The version search regex is not modelled: the groups it extracts are an input. The three patterns of `_update_ctl_file` are modelled line by line, with the differences listed in the next lines.
- **Paml.UpdateCtl:** applies each pattern to the template split at newlines, so a `\s*` between the key and `=` never crosses a newline. The source applies `re.subn` to the whole text, where `\s` also matches a newline. A template such as `seqfile\n= x\ntreefile = t\noutfile = o` is substituted by the source, while the model finds no `seqfile` match and fails the assertion. Backslash escapes in the file names, which `re.subn` interprets in its replacement string, are not modelled either: the name is inserted as written.
- **Paml.UpdateCtlMeaning:** states when the line-by-line model succeeds, so it has the same gap: a key separated from its `=` by a newline is not a match in the model.
- **Paml.EqualsEnd:** reads `\s*=` within one line only (a newline is not taken as blank).
- **Paml.MatchFrom:** finds `key\s*=` within one line only, for the same reason.
- **Helpers not shown.** `pypeline/common/sequences.py` is not part of this model. `pypeline/common/formats/fasta.py` is not part of this model either: FASTA reading and writing follow the behaviour their tests describe. `pypeline/common/text.py` and `pypeline/common/signals.py` are not part of this model.
- **Fasta.ReadStream:** `parse_fasta` is taken to yield each record once its sequence lines end and to raise at the first malformed record. Its own text is not part of this model.
- **Versions.PprintDefault:** models only the branch where no printer is given (versions.py:251-253). A callable printer runs foreign code, and a format string needs `str.format` (versions.py:254-260); neither branch is modelled. So the model does not capture the ValueError of a bad format string, nor the IndexError that `str(check)` in `And` raises when a format string has more fields than the version has parts (versions.py:192).
- **Domain nodes.** Nodes that only wire external tools are left out: bwa, bowtie2, AdapterRemoval, RAxML, Picard, samtools, MAFFT, and the BAM pipeline's node and part modules. So are nodes that use pysam or compute floating-point statistics.
- **Command-line entry points and UI.** The model leaves out `ui.py`, the makefile templates (`mkfile.py`), configuration parsing and `move.py`.
- **Code that cannot run as written.** The model leaves out:
  - `root_pipeline`;
  - `vcf_filter.py`;
  - `vcf_pipeline/parts/variant.py`;
  - `vcf_snp_list.py`;
  - the phylo pipeline's `steps/`;
  - `list_orphan_files`, which uses `glob` without importing it.
- **Error messages.** Errors are modelled as exception kinds. Message text is not modelled.
- **Test and lint harness.** `pypeline/common/testing.py` and the pylint plugins are left out.

## Findings

| source | as written | input that shows it | evidently intended | confidence | as-written member | corrected member |
|---|---|---|---|---|---|---|
| pypeline/node.py:270-271 | `CommandNode._teardown` reads `expected_temp_files` and `optional_temp_files`, which the command sets do not provide | a CommandNode whose command is a ParallelCmds or SequentialCmds | the set's aggregated temporary files are checked and committed | not executed | Nodes.SetCommandTeardownAsWritten | Nodes.SetCommandTeardownCorrected |
| pypeline/nodegraph.py:237-241 | the message names `producer`, which is unbound at that point | a node reading file `x` made by a node it does not depend on | NodeGraphError naming the producing node | not executed | NodeGraphs.UndeclaredDependencyExample | NodeGraphs.CheckFileDependenciesMeaning |
| pypeline/atomiccmd/builder.py:157 | `list.remove` drops the first option equal to the one found, not the one found | options `-a 1`, `-b`, `-a 1`, then popping `-a` | the last `-a` option, the one `_get_option_for_editing` found, is removed | not executed | Builders.PopAsWrittenRemovesEarlier | Builders.PopOptionMeaning |
| pypeline/atomicpp.py:152-154 | an item wider than the width in first position starts a new line after an empty one | one item longer than 80 characters | the first line holds the first item | not executed | AtomicPrettyPrint.WrapAsWrittenEmptyFirstLine | AtomicPrettyPrint.LayoutOfMeaning |
| pypeline/nodes/formats.py:45-46 | `any` where the message says every file needs a name | two entries, only one of them with "name" | ValueError unless every entry has "name" | not executed | NodeFormats.NamelessEntryAccepted | NodeFormats.CheckInfiles |
| pypeline/nodes/formats.py:47-48 | the message uses `dd`, which is not in scope outside the generator | an entry with a key outside the valid keys | ValueError listing the invalid keys | not executed | NodeFormats.InvalidKeyNameError | NodeFormats.CheckInfiles |
| pypeline/nodes/sequences.py:60-64 | the inner loop rebinds `name`, so a taxon's records are filed under its file's last record name | a taxon whose file holds one record with another name | the records are filed under the taxon | not executed | NodeSequences.ReboundLosesTaxon | NodeSequences.KeyedKeepsTaxon |
| pypeline/tools/bam_pipeline/makefile.py:47-50 | the name is title-cased before it is compared with names such as "SingleReads", which title-casing never produces | prefix name "SingleReads" | reserved read-type names are refused | not executed | BamMakefile.ReadsPrefixAccepted | BamMakefile.ReadsPrefixRefused |
| pypeline/tools/bam_pipeline/pipeline.py:173-174 | `target[1]` is read for one-element targets | listing "targets" of a makefile with one target | the target is listed | not executed | BamPipeline.ListTargetsRaises | BamPipeline.TargetsForMeaning |
| pypeline/common/makefile.py:121 | the keyword check passes any keywords that do not include `case_sensitive` | `OneOf(..., min_items=1)` | AssertionError for any keyword but `case_sensitive` | not executed | Makefile.OneOfKeywordCheckAsWritten | Makefile.MakeOneOfStrict |
| pypeline/common/versions.py:181-184 | `And` describes itself with the tag "Or", so an `And` and an `Or` of the same checks share a cache key | `And(GE(2), LT(1))` and `Or(GE(2), LT(1))` for one call | distinct keys for `And` and `Or` | not executed | Versions.AndOrKeysCollide | Versions.KeyInjective |
