# KKSeqTools core in Dafny

A Dafny model of two parts of the KKSeqTools repository, with proofs of what
they do.

- The annoVIBRANT pipeline's own steps:
  - `split_nucl.py` and `split_prot.py` check the input format and spread the
    records over at most `threads` shard files. Proteins of one scaffold that
    are neighbours are never separated.
  - `hmm_parse.py` keeps the best hmmsearch hit per protein.
  - `annotations.py` joins the KEGG, Pfam and VOG hits into annotation tables
    and AMG tables.
  - `combine_clean.py` summarises the AMGs.
  - `fasta_parse.py` is the shared FASTA reader.
- The stand-alone utilities under `scripts/`:
  - FASTA tools: `Extract_Seqs.py`, `edit_fasta_headers.py`,
    `split_seqs_to_files.py`, `limit_sequence_length.py`,
    `count_sequence_length.py`, `sequence_length_stats.py`,
    `headers_from_fasta.py` and `prophages_from_vibrant.py`.
  - Tools for HMM and table files: `hmm_parser.py`, `split_hmms_to_files.py`
    and `table_sort_filter.py`.
  - The GenBank converter `genbank_to_fasta.py`.

There is one module for each source file, and the shared modules do not
repeat what a source file does:

- `Wrappers`: Option, Result, and the Python exceptions a script can end in.
- `Strings`: Python's `split`, `rsplit`, `join`, `strip`, `replace`, `upper`
  and `count` on `seq<char>`.
- `Numbers`: `int()`, `str()`, `math.ceil` of a division, and slicing.
- `Fasta`: the lines you get by iterating over a file, and `fasta_parse`.
- `Tables`: the pandas `sort_values` and `drop_duplicates` calls.
- `Sharding`: the shard loop that the split scripts share.

How the model is written:

- A file is its text, or the lines Python yields for it. An output file is
  the text written to it.
- Whether a path exists is a parameter `present`. Float parsing and float
  formatting are parameters too.
- Code that loops and updates variables is a `method`. Each such method is
  proved against a recursive specification function, and the properties are
  lemmas about that function.
- Objects whose methods update their fields are classes. These are
  `Annotator`, `Extractor`, the `Splitter`s, `Sorter` and the GenBank
  `Converter`. Their methods state their new state through a specification
  function of the old state.

## Where the code and its documented behaviour differ

The model follows the code in each of these cases.

- Shard sizes: a shard is closed once it already holds at least the byte
  target. So a closed shard is at or above the target, not below it. It is
  below the target plus its last record (`Sharding.PrefixClosedFull`,
  `Sharding.PrefixTight`).
- Protein groups: the shard index only moves when a record's scaffold differs
  from the previous record's scaffold. So neighbouring records of one group
  always share a shard (`Sharding.PrefixGroupBoundary`). A group whose records
  are not contiguous in the file can still be split.
- Blank lines: `split_nucl.py`, `split_prot.py` and `split_seqs_to_files.py`
  write each record as `>{name}\n{seq}\n`, and `seq` keeps its last newline.
  So every record is followed by a blank line (`SplitCommon.RecordText`).
- Empty input: `split_prot.py` rejects an empty file as not being a protein
  file, while `split_nucl.py` raises StopIteration on it.
- `annotations.py` picks the winner in database order. A later database wins
  a tie (`Annotations.Winner`).
- `sequence_length_stats.py` writes the part of the `-i` path before its
  last '/' in the `file` column (`LengthStats.Base`). A repeated cutoff
  overwrites the earlier bin with the count of the empty range between the
  repeats, so those sequences are counted nowhere and the row has one count
  fewer than the header (`LengthStats.RepeatedCutoffOverwrites`).
- `count_sequence_length.py` writes its heading before it reads the FASTA
  file. So a malformed file leaves only the heading.
- `limit_sequence_length.py -m between` exits when fewer than two lengths are
  given. `above` and `below` raise IndexError when none is given.
- `genbank_to_fasta.py`:
  - Its feature loop has no end-of-file test. A record that reaches the end
    of the file without an ORIGIN line loops forever; the model reports this
    as the outcome `Loops`.
  - Its header loop consumes a blank line like any other.

## Model

| member | source | states |
|---|---|---|
| Fasta.Lines | annoVIBRANT/scripts/fasta_parse.py:6-7 | the lines file iteration yields join back to the whole text, and there are none only for an empty file |
| Fasta.LinesAreFileLines | annoVIBRANT/scripts/fasta_parse.py:7 | every yielded line is non-empty and only the last one may lack its newline |
| Fasta.LinesOfConcat | annoVIBRANT/scripts/fasta_parse.py:7 | writing whole lines to a file and iterating over it gives back exactly those lines |
| Fasta.Bare | scripts/count_sequence_length.py:17 | `seq.replace('\n','')` holds no newline and is shorter by the number of newlines |
| Fasta.ParseFasta | annoVIBRANT/scripts/fasta_parse.py:5-19 | the generator's loop, record by record, yields exactly the records (or raises exactly the exception) of the line-by-line specification `Parse` |
| Fasta.ScanFailedStays | annoVIBRANT/scripts/fasta_parse.py:7-16 | once an exception is raised, no later line changes the outcome |
| Fasta.ScanShape | scripts/fasta_parse.py:12-21 | with non-empty lines, a first line that is not a header raises NameError and a header first line leaves the loop inside a record |
| Fasta.ParseFailsIff | scripts/fasta_parse.py:10-24 | the generator raises exactly when there are no lines or the first line is not a header, and the exception is NameError |
| Fasta.ParseTextFailsIff | annoVIBRANT/scripts/fasta_parse.py:5-19 | on a whole file, NameError exactly when the file is empty or does not start with '>' |
| Fasta.HeaderTextNoNewline | annoVIBRANT/scripts/fasta_parse.py:14 | `line[1:].strip("\n")` of a line leaves no newline in the header |
| Fasta.ParseHeaders | annoVIBRANT/scripts/fasta_parse.py:8-19 | one record per header line, in file order, each carrying that line's header text |
| Fasta.ParseUnparse | scripts/fasta_parse.py:10-24 | writing the yielded records back as `>header\nsequence` reproduces the lines read when every header line ends in a newline |
| Fasta.ParseTextUnparse | scripts/fasta_parse.py:10-24 | for a file ending in a newline, the records written back reproduce the file |
| Placeholder.EncodeHasNoSpace | annoVIBRANT/scripts/split_nucl.py:45 | a name with every space written as `$~&` has no space left and grows by two characters per space |
| Placeholder.DecodeEncode | annoVIBRANT/scripts/annotations.py:114 | turning `$~&` back into spaces restores every name that did not already hold the marker |
| SplitCommon.LetterCount | annoVIBRANT/scripts/split_nucl.py:31-33 | the counting loop over the five letters computes the nucleotide count of the line |
| SplitCommon.CountNucleotidesIff | annoVIBRANT/scripts/split_nucl.py:34 | the count is at most the length and equals it exactly when every character is A, T, C, G or N |
| SplitCommon.Target | annoVIBRANT/scripts/split_nucl.py:37-39 | `math.ceil(size/threads)`: ZeroDivisionError exactly for no threads, otherwise the least value whose multiple by `threads` reaches the size |
| SplitCommon.Extension | annoVIBRANT/scripts/split_nucl.py:16 | `rsplit('.',1)[1]`: IndexError exactly when the path has no '.', otherwise the '.'-free text after the last '.' |
| SplitCommon.RecordText | annoVIBRANT/scripts/split_nucl.py:55 | the text appended for one record starts with '>' and is three characters longer than name and sequence |
| Sharding.PrefixContents | annoVIBRANT/scripts/split_nucl.py:43-55 | after any number of records, each shard file is one block of consecutive records holding exactly their texts |
| Sharding.PrefixKeepsOrder | annoVIBRANT/scripts/split_nucl.py:43-55 | the shard files read in order hold the records' texts in input order |
| Sharding.PrefixCount | annoVIBRANT/scripts/split_nucl.py:49-50 | no shard exists before the first record, and the shard number never passes `threads` |
| Sharding.PrefixClosedFull | annoVIBRANT/scripts/split_nucl.py:48-50 | every shard the loop moved on from had reached the byte target |
| Sharding.PrefixGroupBoundary | annoVIBRANT/scripts/split_prot.py:62-74 | with grouping, a shard never starts between two neighbouring records of one genome |
| Sharding.PrefixTight | annoVIBRANT/scripts/split_nucl.py:48-50 | without grouping, a closed shard was below the target before its last record |
| Sharding.DistributeShape | annoVIBRANT/scripts/split_nucl.py:41-55 | the whole distribution: consecutive blocks, order kept, no shard exactly when no record, at most `threads` shards, every closed shard at or over the target |
| Sharding.Shard | annoVIBRANT/scripts/split_nucl.py:43-55 | the append loop with its file counter builds exactly the distribution `Distribute` |
| SplitNucl.FormatCheck | annoVIBRANT/scripts/split_nucl.py:26-35 | StopIteration exactly for an empty file; otherwise the check passes exactly when the stripped second line is all nucleotide letters |
| SplitNucl.Rejects | annoVIBRANT/scripts/split_nucl.py:19-24 | a run that ends with `check` false is one whose format check failed, and then no split folder exists |
| SplitNucl.Errors | annoVIBRANT/scripts/split_nucl.py:12-55 | IndexError without an extension, StopIteration for an empty file, ZeroDivisionError for no threads, NameError when the file does not start with a header |
| SplitNucl.Passed | annoVIBRANT/scripts/split_nucl.py:19-57 | when the check passes, the records parse, the byte target exists and the folder holds their distribution |
| SplitNucl.Shards | annoVIBRANT/scripts/split_nucl.py:41-55 | between one and `threads` shards, records in order, every closed shard at or over the target and below it before its last record |
| SplitNucl.Splitter.constructor | annoVIBRANT/scripts/split_nucl.py:12-17 | the attributes set before the first call that can raise |
| SplitNucl.Splitter.CheckFormat | annoVIBRANT/scripts/split_nucl.py:26-35 | `check_format` only clears `check`, as `FormatCheck` decides, or raises its error |
| SplitNucl.Splitter.BytesPerFile | annoVIBRANT/scripts/split_nucl.py:37-39 | `bytes_per_file` sets the target of `Target`, or raises ZeroDivisionError and leaves it |
| SplitNucl.Splitter.Splitter | annoVIBRANT/scripts/split_nucl.py:41-57 | `splitter` fills the folder with the distribution of the parsed records and sets `check` |
| SplitNucl.Splitter.Init | annoVIBRANT/scripts/split_nucl.py:12-24 | the constructor's run ends in the state, or raises the error, of the specification `Outcome` |
| SplitProt.FormatCheck | annoVIBRANT/scripts/split_prot.py:26-39 | the check passes exactly when the first name (before ' # ') holds a '_' and the second line is not all nucleotide letters |
| SplitProt.NormalNameShape | annoVIBRANT/scripts/split_prot.py:49 | a normalised name has no space and no ' # ', has the expected length, and decodes to the part before ' # ' |
| SplitProt.Rejects | annoVIBRANT/scripts/split_prot.py:19-24 | a run ending with `check` false is one whose format check failed, and then no split folder exists |
| SplitProt.EmptyFileRejected | annoVIBRANT/scripts/split_prot.py:28-39 | an empty file is rejected rather than raising: both lines it reads are empty |
| SplitProt.RemadeParses | annoVIBRANT/scripts/split_prot.py:41-50 | the remade copy of parsed records starts with a header, so parsing it never raises |
| SplitProt.Errors | annoVIBRANT/scripts/split_prot.py:12-77 | IndexError without an extension, NameError when a passing file does not start with '>', ZeroDivisionError for no threads |
| SplitProt.Passed | annoVIBRANT/scripts/split_prot.py:19-77 | when the check passes, the file parses and the folder holds the shards of its copy |
| SplitProt.ShardFilesOfCopy | annoVIBRANT/scripts/split_prot.py:52-77 | the copy parses again into records, ZeroDivisionError exactly for no threads, otherwise shards under a positive target |
| SplitProt.Shards | annoVIBRANT/scripts/split_prot.py:56-74 | between one and `threads` shards in order, closed shards at or over the target, and records of one genome side by side never split |
| SplitProt.Splitter.constructor | annoVIBRANT/scripts/split_prot.py:12-17 | the attributes set before the first call that can raise |
| SplitProt.Splitter.CheckFormat | annoVIBRANT/scripts/split_prot.py:26-39 | `check_format` only clears `check`, as `FormatCheck` decides |
| SplitProt.Splitter.RemakeFile | annoVIBRANT/scripts/split_prot.py:41-50 | `remake_file` stores the copy with normalised names, or raises the parser's error |
| SplitProt.Splitter.BytesPerFile | annoVIBRANT/scripts/split_prot.py:52-54 | `bytes_per_file` sets the target from the copy's size, or raises ZeroDivisionError |
| SplitProt.Splitter.Splitter | annoVIBRANT/scripts/split_prot.py:56-77 | `splitter` fills the folder with the shards of the copy and removes the copy |
| SplitProt.Splitter.Init | annoVIBRANT/scripts/split_prot.py:12-24 | the constructor's run ends in the state, or raises the error, of the specification `Outcome` |
| HmmParse.AccessionField | annoVIBRANT/scripts/hmm_parse.py:30 | the accession is token 3 for Pfam and token 2 for KEGG and VOG, always one of the six tokens read (also lines 52, 73) |
| HmmParse.DataLinesIsPrefix | annoVIBRANT/scripts/hmm_parse.py:25-27 | the lines tabulated are exactly those before the first line starting with '#' |
| HmmParse.ParseLine | annoVIBRANT/scripts/hmm_parse.py:28-33 | a line splits into its non-empty space-separated tokens; IndexError exactly when there are fewer than six |
| HmmParse.ParseLineTokens | annoVIBRANT/scripts/hmm_parse.py:28-32 | protein, accession, e-value and score of a parsed line are each one space-free token |
| HmmParse.ParseLinesFails | annoVIBRANT/scripts/hmm_parse.py:25-33 | the rows are all written exactly when every data line has six tokens, otherwise IndexError |
| HmmParse.ParseLinesRows | annoVIBRANT/scripts/hmm_parse.py:25-33 | one row per data line, in input order |
| HmmParse.ParseLinesFailsOn | annoVIBRANT/scripts/hmm_parse.py:25-33 | once a line fails, the whole table fails the same way |
| HmmParse.Tabulate | annoVIBRANT/scripts/hmm_parse.py:20-33 | the method skipping three lines and looping to the first comment computes the specification `Table` |
| HmmParse.TabulateBody | annoVIBRANT/scripts/hmm_parse.py:25-33 | the loop with its `break` computes the rows of exactly the comment-free prefix |
| HmmParse.Extend | annoVIBRANT/scripts/hmm_parse.py:25-33 | a further line either adds its row after the earlier ones or stops the table with its error |
| HmmParse.RowFields | annoVIBRANT/scripts/hmm_parse.py:33-35 | a written row, read back with tabs as separators, gives back its four columns |
| HmmParse.BestHits | annoVIBRANT/scripts/hmm_parse.py:35-38 | sorting by e-value and keeping the first row per protein leaves one row per protein, every protein kept, only input rows, each with that protein's lowest e-value, still sorted |
| HmmParse.Run | annoVIBRANT/scripts/hmm_parse.py:10-17 | KEGG, Pfam and VOG are processed in turn and the first exception stops the rest; success exactly when all three succeed |
| HmmParser.Naming | scripts/hmm_parser.py:21-33 | without `-o`, the default names derive from the input and the run exits when the output exists; with `-o`, it exits when the derived full table exists |
| HmmParser.NamingDistinct | scripts/hmm_parser.py:21-33 | the full table and the parsed output are never the same file |
| HmmParser.FullTextLines | scripts/hmm_parser.py:42-55 | the full table is its header line followed by one line per hit, each reading back as the hit's four fields |
| HmmParser.Field | scripts/hmm_parser.py:52-74 | the accession is token 3 with `--pfam` and token 2 otherwise |
| HmmParser.BestRows | scripts/hmm_parser.py:57-60 | one row per protein, every protein kept, only input rows, each with the highest score (mode `score`) or lowest e-value (mode `evalue`) of its protein |
| HmmParser.WriteFull | scripts/hmm_parser.py:42-55 | the write loop produces exactly the header row and one row per hit |
| HmmParser.Run | scripts/hmm_parser.py:11-82 | a run ends in the outcome of the specification `Outcome`: exit, the parser's error, or the two tables |
| Tables.SortBy | scripts/table_sort_filter.py:52-55 | sorting gives a permutation of the rows ordered by the key in the requested direction |
| Tables.SortByStable | scripts/table_sort_filter.py:52-55 | the model's sort keeps rows with equal keys in input order |
| Tables.DropDuplicatesKeys | scripts/table_sort_filter.py:66 | dropping duplicates keeps exactly one row for every key value and only input rows |
| Tables.DropDuplicatesFirst | scripts/table_sort_filter.py:66 | the row kept for a key is its first one |
| Tables.DropDuplicatesSorted | annoVIBRANT/scripts/hmm_parse.py:36-37 | dropping duplicates from a sorted table leaves it sorted |
| Tables.DropDuplicatesBest | annoVIBRANT/scripts/hmm_parse.py:36-37 | after sorting, the row kept for each key is a best row of that key |
| Tables.BestPerKey | annoVIBRANT/scripts/hmm_parse.py:36-37 | for any sorted permutation pandas may choose, the kept rows are one per key, all keys, input rows, each best for its key, still sorted |
| TableSortFilter.SetupAccepts | scripts/table_sort_filter.py:25-45 | setup reports no error exactly when min is below max (or either is unset or zero), the output is absent, the input exists and a sort or filter column is given |
| TableSortFilter.SetupResult | scripts/table_sort_filter.py:25-45 | setup fails exactly when a check failed; otherwise the output name has its default and the sort column falls back to the filter column |
| TableSortFilter.WhereShape | scripts/table_sort_filter.py:57-63 | filtering keeps exactly the accepted rows, no others and none twice |
| TableSortFilter.WhereSorted | scripts/table_sort_filter.py:57-63 | filtering keeps a sorted table sorted |
| TableSortFilter.Sorted | scripts/table_sort_filter.py:52-55 | the sort step only reorders the rows |
| TableSortFilter.Main | scripts/table_sort_filter.py:48-72 | `main` fails with KeyError exactly when a named column is missing from the table |
| TableSortFilter.SelectRows | scripts/table_sort_filter.py:57-66 | the output rows are input rows inside the bounds, and every drop-column value of the filtered rows is kept once |
| TableSortFilter.SelectBest | scripts/table_sort_filter.py:52-66 | after sorting, the output stays sorted and the row kept for a drop value has the smallest (asc) or largest (des) sort value |
| TableSortFilter.Sorter.constructor | scripts/table_sort_filter.py:11-20 | the settings are the parsed arguments |
| TableSortFilter.Sorter.Setup | scripts/table_sort_filter.py:25-45 | `setup` fills in the default output and sort column and reports every failed check |
| TableSortFilter.Sorter.Run | scripts/table_sort_filter.py:11-23 | the run exits when setup fails and otherwise gives the outcome of `Main` |
| Annotations.Cells | annoVIBRANT/scripts/annotations.py:25 | the cells of `read().replace('\n','\t').split('\t')`: at least one, none holding a tab |
| Annotations.PairsFail | annoVIBRANT/scripts/annotations.py:26-37 | the dict comprehension raises exactly on an odd number of cells or a value that does not convert, and a bad value before the missing one decides the error |
| Annotations.PairsFront | annoVIBRANT/scripts/annotations.py:26 | a successful comprehension is its first pair followed by the comprehension of the remaining cells |
| Annotations.PairsKeys | annoVIBRANT/scripts/annotations.py:26 | a successful comprehension has an even number of cells and exactly the even cells as keys |
| Annotations.PairsAt | annoVIBRANT/scripts/annotations.py:26 | a key not repeated later maps to the cell right after it |
| Annotations.PairsLookup | annoVIBRANT/scripts/annotations.py:26 | every key maps to the value after its last occurrence |
| Annotations.NamesTable | annoVIBRANT/scripts/annotations.py:24-27 | the names table never holds the empty key |
| Annotations.NamesTableCells | annoVIBRANT/scripts/annotations.py:24-27 | IndexError exactly for an odd number of cells; otherwise the keys are the even cells minus '' and each maps to the cell after its last occurrence |
| Annotations.AfterFirstLine | annoVIBRANT/scripts/annotations.py:30 | `next(f)` raises StopIteration exactly on an empty file, otherwise leaves the text after the first line |
| Annotations.AmgSet | annoVIBRANT/scripts/annotations.py:29-32 | StopIteration exactly on an empty file; otherwise a set of newline-free lines without '' |
| Annotations.CategoryTable | annoVIBRANT/scripts/annotations.py:34-38 | the category table never holds the empty key |
| Annotations.CategoryTableFails | annoVIBRANT/scripts/annotations.py:34-38 | StopIteration on an empty file, ValueError on a percentage `float()` rejects, IndexError on an odd number of cells |
| Annotations.CategoryTableValues | annoVIBRANT/scripts/annotations.py:37-38 | every non-empty key is worth one hundredth of the number after its last occurrence |
| Annotations.ListsOf | annoVIBRANT/scripts/annotations.py:23-38 | the three tables are read in order, and `get_lists` succeeds exactly when each does |
| Annotations.Accession | annoVIBRANT/scripts/annotations.py:43-49 | the name written is a prefix of the header, the part before ' # ' for nucleotide input and the whole header otherwise |
| Annotations.NamesRoundTrip | annoVIBRANT/scripts/annotations.py:46 | names without newlines written one per line come back in order from the file (also lines 81-83) |
| Annotations.AccnosText | annoVIBRANT/scripts/annotations.py:40-49 | `make_accnos` raises NameError exactly for an empty FASTA file or one not starting with '>' |
| Annotations.AccnosNames | annoVIBRANT/scripts/annotations.py:40-49 | the proteins read back from the `.accnos` file are one per FASTA header, in file order, each that header's accession (also lines 81-83) |
| Annotations.Put | annoVIBRANT/scripts/annotations.py:60-76 | `k[db] = data` sets one database slot and leaves the others |
| Annotations.ReadRow | annoVIBRANT/scripts/annotations.py:57-58 | a row either reads as a present hit or raises IndexError or ValueError |
| Annotations.ReadWrittenRow | annoVIBRANT/scripts/annotations.py:57-58 | a row written by the HMM table step reads back as its protein, accession, e-value and score |
| Annotations.LoadTable | annoVIBRANT/scripts/annotations.py:54-60 | a table file that is empty raises StopIteration at its header |
| Annotations.CollectFails | annoVIBRANT/scripts/annotations.py:56-60 | the loop succeeds exactly when every line reads, and otherwise raises the first failing line's error |
| Annotations.CollectKeeps | annoVIBRANT/scripts/annotations.py:59-60 | after a table, a protein has an entry exactly when it had one or a row names it, other databases' slots are untouched, unnamed proteins keep their entry |
| Annotations.CollectLastWins | annoVIBRANT/scripts/annotations.py:56-60 | the slot of this table's database holds the data of the last row naming the protein |
| Annotations.Winner | annoVIBRANT/scripts/annotations.py:88-112 | no best hit exactly when no database hit; otherwise a present hit with the highest score, the later database winning ties |
| Annotations.FullRow | annoVIBRANT/scripts/annotations.py:116 | the full table row has 18 columns |
| Annotations.BestRow | annoVIBRANT/scripts/annotations.py:119 | the best-hit row has 6 columns |
| Annotations.AmgRow | annoVIBRANT/scripts/annotations.py:122 | the AMG row has 6 columns |
| Annotations.ProteinColumns | annoVIBRANT/scripts/annotations.py:114-115 | the scaffold is a prefix of the decoded protein name, the part before its last '_' or the whole name |
| Annotations.RowsAgree | annoVIBRANT/scripts/annotations.py:91-122 | the best row repeats the winning database's columns of the full row, the AMG row the KEGG ones, and an AMG is exactly a KEGG hit on the AMG list |
| Annotations.Defaults | annoVIBRANT/scripts/annotations.py:89-107 | a missing hit has empty name and weight, an unlisted accession the name `hypothetical protein` and weight `0`, a listed one its table entries |
| Annotations.TsvLineFields | annoVIBRANT/scripts/annotations.py:116-122 | a written row without tabs in its columns splits back into its columns |
| Annotations.AmgRows | annoVIBRANT/scripts/annotations.py:121-122 | at most one AMG row per protein |
| Annotations.TablesShape | annoVIBRANT/scripts/annotations.py:81-119 | one full and one best row per protein, in order, each the full and best row of that protein |
| Annotations.TablesAmgs | annoVIBRANT/scripts/annotations.py:121-122 | the AMG table has a row exactly for the AMGs among the proteins, in order |
| Annotations.AnnotateRows | annoVIBRANT/scripts/annotations.py:10-122 | a successful run writes one full and one best row per FASTA header, in file order, each for the protein it names |
| Annotations.CollectErrStays | annoVIBRANT/scripts/annotations.py:56-60 | once a line has raised, later lines do not change the outcome |
| Annotations.WriteAccnos | annoVIBRANT/scripts/annotations.py:42-49 | the write loop of `make_accnos` gives one line per record, its accession |
| Annotations.WriteTables | annoVIBRANT/scripts/annotations.py:80-122 | the loop of `write_annos` builds exactly the specification `Tables` over the stripped lines |
| Annotations.Annotator.constructor | annoVIBRANT/scripts/annotations.py:10-14 | the object starts with the form and empty tables |
| Annotations.Annotator.GetLists | annoVIBRANT/scripts/annotations.py:23-38 | `get_lists` stores the three tables of `ListsOf` or raises its error |
| Annotations.Annotator.MakeAccnos | annoVIBRANT/scripts/annotations.py:40-49 | `make_accnos` stores the `.accnos` text, or leaves the file empty and raises |
| Annotations.Annotator.Load | annoVIBRANT/scripts/annotations.py:54-60 | one block of `get_annos` updates the annotations as `LoadTable` says or raises its error |
| Annotations.Annotator.GetAnnos | annoVIBRANT/scripts/annotations.py:52-76 | `get_annos` builds the annotations of the three tables or raises the first error |
| Annotations.Annotator.WriteAnnos | annoVIBRANT/scripts/annotations.py:79-122 | `write_annos` writes the three tables of `Tables` for the proteins of the `.accnos` file |
| Annotations.Annotator.Prepare | annoVIBRANT/scripts/annotations.py:16-18 | the first three steps in order leave the inputs of `InputsOf` in the object, or raise the first error |
| Annotations.Annotator.Run | annoVIBRANT/scripts/annotations.py:10-19 | the four steps in order; the first exception ends the run, otherwise the tables of `Annotate` are written |
| CombineClean.KoNamesFail | annoVIBRANT/scripts/combine_clean.py:25-27 | the KO name comprehension raises IndexError exactly when a key cell is empty or the cells end on a `K` key with no name |
| CombineClean.KoNamesKeys | annoVIBRANT/scripts/combine_clean.py:27 | the names map has exactly the key cells starting with `K` as keys |
| CombineClean.KoNamesAt | annoVIBRANT/scripts/combine_clean.py:27 | a `K` key cell not repeated later is named by the cell after it |
| CombineClean.PathwayLine | annoVIBRANT/scripts/combine_clean.py:34-35 | a pathway line raises ValueError exactly when it does not split into four tab fields, and lists at least one KO otherwise |
| CombineClean.AddPathwayListed | annoVIBRANT/scripts/combine_clean.py:36-37 | a line appends its pathway to each KO it lists, once per listing, and adds no other key |
| CombineClean.PathwayMapFails | annoVIBRANT/scripts/combine_clean.py:32-37 | building the pathways fails, with ValueError, exactly when some line does not have four fields |
| CombineClean.PathwayMapListed | annoVIBRANT/scripts/combine_clean.py:32-37 | every KO holds the pathways listing it, in file order, and is a key exactly when some pathway lists it |
| CombineClean.PathwaysTable | annoVIBRANT/scripts/combine_clean.py:30-38 | the pathway table has no empty key after the pop |
| CombineClean.BumpShape | annoVIBRANT/scripts/combine_clean.py:42 | counting one more KO raises its entry alone or appends a new entry of count 1, and the total grows by one |
| CombineClean.BumpKos | annoVIBRANT/scripts/combine_clean.py:42 | counting keeps the KO order, appending a KO seen for the first time |
| CombineClean.BumpDistinct | annoVIBRANT/scripts/combine_clean.py:42 | counting keeps the KOs distinct |
| CombineClean.TallyKeys | annoVIBRANT/scripts/combine_clean.py:41-42 | `Counter(ko).items()` has one entry per distinct KO of the column, and no other |
| CombineClean.TallySum | annoVIBRANT/scripts/combine_clean.py:41-42 | the counts add up to the number of rows |
| CombineClean.TallyCounts | annoVIBRANT/scripts/combine_clean.py:41-42 | each entry counts the rows holding its KO |
| CombineClean.TallyOrder | annoVIBRANT/scripts/combine_clean.py:42 | the entries come in order of first appearance |
| CombineClean.OrderedEntries | annoVIBRANT/scripts/combine_clean.py:43 | sorting the counts keeps exactly the counter's entries |
| CombineClean.OrderedCounts | annoVIBRANT/scripts/combine_clean.py:41-43 | the ordered counts have one entry per distinct KO with its number of rows |
| CombineClean.OrderedDescending | annoVIBRANT/scripts/combine_clean.py:43 | the ordered counts run by count descending and add up to the number of rows |
| CombineClean.OrderedStable | annoVIBRANT/scripts/combine_clean.py:42-43 | equal counts stay in order of first appearance, as the stable sort keeps them |
| CombineClean.OrderedDistinct | annoVIBRANT/scripts/combine_clean.py:43 | no KO has two entries after the sort |
| CombineClean.PathwayRows | annoVIBRANT/scripts/combine_clean.py:51-54 | every KO gets at least one pathway row |
| CombineClean.SummaryRows | annoVIBRANT/scripts/combine_clean.py:48-54 | one three-column count row per ordered KO |
| CombineClean.SummaryCountsAt | annoVIBRANT/scripts/combine_clean.py:49-52 | count row `i` is the `i`-th ordered KO with its count and name |
| CombineClean.SummaryCountRows | annoVIBRANT/scripts/combine_clean.py:48-52 | the count rows are the ordered KOs, row by row |
| CombineClean.SummaryCounts | annoVIBRANT/scripts/combine_clean.py:24-54 | each count row gives a KO's number of rows and its name or `hypothetical protein`, and every KO of the column has a row |
| CombineClean.SummaryOrder | annoVIBRANT/scripts/combine_clean.py:42-52 | the count rows run by count descending, ties in order of first appearance, no KO twice |
| CombineClean.PathwayRowsOf | annoVIBRANT/scripts/combine_clean.py:51-54 | a KO gets one row per pathway listing it, in file order, or one `None` row when none does |
| CombineClean.WritePathwayRows | annoVIBRANT/scripts/combine_clean.py:53-54 | the inner write loop produces exactly the pathway rows of one KO |
| CombineClean.WriteSummary | annoVIBRANT/scripts/combine_clean.py:48-54 | the write loop produces, for each ordered KO, its count row and then its pathway rows |
| CombineClean.BuildPathways | annoVIBRANT/scripts/combine_clean.py:33-37 | the building loop computes the specification `PathwayMap` |
| CombineClean.PathwayMapErr | annoVIBRANT/scripts/combine_clean.py:33-37 | once a line fails, the rest of the file does not change the error |
| CombineClean.SummarizeAmgs | annoVIBRANT/scripts/combine_clean.py:24-54 | `summarize_AMGs` computes the specification `Summarize`: names, pathways, counts and the two tables |
| SplitSeqs.WrittenPrefix | scripts/split_seqs_to_files.py:52-58 | as written, the prefix is `-p` when given, otherwise a leading part of the text before the path's first '/' |
| SplitSeqs.Prefix | scripts/split_seqs_to_files.py:52-58 | the intended prefix is `-p` when given, otherwise a leading part of the path's last component, free of '/' |
| SplitSeqs.PrefixOfPath | scripts/split_seqs_to_files.py:52-58 | for `dir/name` the intended prefix is the stem of `name`, and for a bare file name the written and intended prefixes agree |
| SplitSeqs.WrittenPrefixOfAbsolutePath | scripts/split_seqs_to_files.py:55-56 | as written, an absolute path gives the empty prefix, where the intended one is the file's stem |
| SplitSeqs.AbsolutePathExample | scripts/split_seqs_to_files.py:55-56 | `/x.fa` gives the written prefix "" against the intended `x` |
| SplitSeqs.Quota | scripts/split_seqs_to_files.py:83-96 | the effective number of records per file is at least 1, as `counter >= s` holds after every record when `s` is at most 1 |
| SplitSeqs.Chunks | scripts/split_seqs_to_files.py:78-100 | the reference grouping into files of `q` consecutive records has no file exactly when there is no record |
| SplitSeqs.ChunksSnoc | scripts/split_seqs_to_files.py:79-86 | one more record opens a new file exactly when the count so far is a multiple of `q`, and otherwise extends the last file |
| SplitSeqs.ChunksConcat | scripts/split_seqs_to_files.py:79-86 | every record is written once, in order |
| SplitSeqs.ChunksCount | scripts/split_seqs_to_files.py:78-100 | there are `ceil(n/q)` files |
| SplitSeqs.ChunksAt | scripts/split_seqs_to_files.py:78-100 | file `k` holds `q` consecutive records, and the last file between 1 and `q` |
| SplitSeqs.FilesCreatedCount | scripts/split_seqs_to_files.py:43 | the corrected file count equals the number of files written |
| SplitSeqs.ReportedFilesOffByOne | scripts/split_seqs_to_files.py:43 | the reported `New files created` is one more than the files written whenever the count is an exact multiple of the quota; two records one per file report three (also line 84) |
| SplitSeqs.Items | scripts/split_seqs_to_files.py:104-107 | the records as the size loop sees them, one item per text |
| SplitSeqs.PrefixAtMost | scripts/split_seqs_to_files.py:109-110 | the size loop never has more files than records seen |
| SplitSeqs.BySizeShape | scripts/split_seqs_to_files.py:102-113 | the `-b` files hold every record once, in order, in consecutive blocks; every file left behind reached the target, and was below it before its last record |
| SplitSeqs.ReportedAverage | scripts/split_seqs_to_files.py:108-113 | the summed size counts the last file twice when it reached the target |
| SplitSeqs.Splitter.constructor | scripts/split_seqs_to_files.py:25-29 | the counters start at zero and the file number at 1 |
| SplitSeqs.Splitter.ByCount | scripts/split_seqs_to_files.py:78-100 | the loop of `method_s`/`method_n` writes the files of `Chunks`, `holder` counts every record, `counter` holds the remainder and `file` is one more than the full files |
| SplitSeqs.Splitter.BySizeLoop | scripts/split_seqs_to_files.py:102-113 | the loop of `method_b` writes the files of `BySize`, counts every record, and sets `file` and the average as the code computes them |
| SplitSeqs.Splitter.Place | scripts/split_seqs_to_files.py:105-108 | one `-b` record goes to a new file when none is open or the last one reached the target, and otherwise extends the open file; `holder` counts it and `byte` is that file's size |
| SplitSeqs.Splitter.Record | scripts/split_seqs_to_files.py:104-111 | one turn of the `-b` loop leaves the files of `WrittenBySize` one record further, moves `file` on exactly when the file reached the target, and adds the size of every file left behind to the sum |
| SplitSeqs.Splitter.RunBySize | scripts/split_seqs_to_files.py:102-113 | `method_b` on a fresh object ends in the outcome of `SplitBySize`, its error included |
| SplitSeqs.QuotaOf | scripts/split_seqs_to_files.py:60-68 | `-s` is the quota as given; with `-n`, `grep -c '>'` counting nothing raises CalledProcessError before the division, `-n 0` raises ZeroDivisionError, and a positive `n` gives the least quota whose `n` multiples cover the count |
| SplitSeqs.Splitter.RunByCount | scripts/split_seqs_to_files.py:78-100 | `method_s`/`method_n` on a fresh object end in the outcome of `SplitByCount`, its error included |
| SplitSeqs.BySizeStep | scripts/split_seqs_to_files.py:106-111 | one record of the `-b` loop opens a new file when none is open or the open one holds the target, and otherwise extends it |
| SplitSeqs.FileNames | scripts/split_seqs_to_files.py:81 | the output names are `<output><prefix>.<k>.<ext>` for `k` from 1 |
| SplitSeqs.Split | scripts/split_seqs_to_files.py:15-40 | a name without '.' fails with the extension's IndexError, and the files are named `<output><prefix>.<k>.<ext>` from 1, one name per file written |
| SplitSeqs.SplitFails | scripts/split_seqs_to_files.py:25 | a run fails exactly when the input name has no '.', the quota divides by zero, or the file does not start with a header; the error is IndexError for the name, then CalledProcessError when `-n` meets a file without any '>', then ZeroDivisionError, then NameError (also lines 60-67, 73, 79) |
| SplitSeqs.SplitWritesAll | scripts/split_seqs_to_files.py:78-113 | a run writes every record once, in order, counts every record as written, and the corrected file count is the number of files |
| SplitSeqs.FileCountAtMost | scripts/split_seqs_to_files.py:89-100 | with `-n n`, `n > 0`, at most `n` files are made, since `grep -c '>'` counts at least the records |
| SplitSeqs.GrepAtLeastHeaders | scripts/split_seqs_to_files.py:61-62 | `grep -c '>'` counts at least the header lines |
| SplitSeqs.BySizeWritesAll | scripts/split_seqs_to_files.py:104-107 | the `-b` files hold all records in order |
| SplitSeqs.Run | scripts/split_seqs_to_files.py:15-113 | a run driving the object ends in the outcome of the specification `Split` |
| EditHeaders.Separator | scripts/edit_fasta_headers.py:19-20 | a separator without `tab` in it is kept as given |
| EditHeaders.TabSeparator | scripts/edit_fasta_headers.py:19-20 | the separator `tab` becomes the tab character |
| EditHeaders.DefaultOutput | scripts/edit_fasta_headers.py:22-24 | the default output fails with IndexError exactly for an input path without '.' |
| EditHeaders.DefaultOutputOf | scripts/edit_fasta_headers.py:22-24 | `.edited` goes in front of the last extension |
| EditHeaders.BaseOfPath | scripts/edit_fasta_headers.py:52-57 | for `dir/stem.ext` the written base is the directory where the intended base is `stem`; for a bare `stem.ext` both are `stem` |
| EditHeaders.PartAlwaysRejected | scripts/edit_fasta_headers.py:100-115 | as written, every `-s` value, the default included, fails the part test, so methods 7 and 8 always exit |
| EditHeaders.Part | scripts/edit_fasta_headers.py:100-104 | the corrected part test accepts exactly no value, `0` and `1`, giving part 1 exactly for `1` |
| EditHeaders.NewHeader | scripts/edit_fasta_headers.py:59-125 | a new header is computed for every method, and fails only for methods 7 and 8, with IndexError |
| EditHeaders.KeywordAbsent | scripts/edit_fasta_headers.py:87 | methods 5 and 6 leave a header without the keyword as it is, and method 9 one without the replaced text (also lines 96, 124) |
| EditHeaders.ReplaceBySelf | scripts/edit_fasta_headers.py:124 | method 9 replacing a text by itself leaves the header as it is |
| EditHeaders.SplitParts | scripts/edit_fasta_headers.py:107-118 | when the split text occurs, parts 0 and 1 both exist and join back into the header around it |
| EditHeaders.SplitAbsent | scripts/edit_fasta_headers.py:107-118 | without the split text, part 0 is the whole header and part 1 raises IndexError |
| EditHeaders.Edited | scripts/edit_fasta_headers.py:59-125 | one record out per record in, in order, each with its new header and its sequence plus a newline; fails exactly when some header fails |
| EditHeaders.Checked | scripts/edit_fasta_headers.py:12-50 | the argument checks pass exactly when the output path (`-o`, or the default one) is absent, `-a` is given for methods 3 to 9, `-k` for 5 and 6, and the part test passes for 7 and 8; they settle that path and part |
| EditHeaders.Edit | scripts/edit_fasta_headers.py:12-50 | a run succeeds exactly when the checks pass, the FASTA file parses and every header can be rewritten, and then writes the rewritten records to the settled path |
| ExtractSeqs.Names | scripts/Extract_Seqs.py:44-49 | the list names never contain the empty line |
| ExtractSeqs.NamesOfList | scripts/Extract_Seqs.py:44-49 | a list written one name per line gives back exactly its non-empty names, each once |
| ExtractSeqs.DelimiterText | scripts/Extract_Seqs.py:205-206 | every `--split` choice stands for a non-empty text |
| ExtractSeqs.SplitHeader | scripts/Extract_Seqs.py:152-155 | the split header is a prefix of the header, and the whole header when the delimiter does not occur |
| ExtractSeqs.Renamed | scripts/Extract_Seqs.py:92-159 | the script's parser yields the shared parser's records in order, sequences unchanged, each header cut to a prefix, untouched without `--split` |
| ExtractSeqs.Exact | scripts/Extract_Seqs.py:51-59 | method 1 only ever removes listed names |
| ExtractSeqs.ExactWritesListed | scripts/Extract_Seqs.py:51-59 | method 1 writes only listed names, each at most once, as many records as names it used up |
| ExtractSeqs.ExactFindsAll | scripts/Extract_Seqs.py:51-59 | when every listed name heads some record, method 1 uses up every name |
| ExtractSeqs.FirstListedShape | scripts/Extract_Seqs.py:51-59 | the records a list picks out of a file carry exactly the listed names that head some record, each once |
| ExtractSeqs.ExactPicksFirstListed | scripts/Extract_Seqs.py:51-59 | method 1, with its early `break`, writes in file order the first record headed by each listed name, and leaves exactly the names that head no record |
| ExtractSeqs.PrefixedExactly | scripts/Extract_Seqs.py:61-69 | method 2 writes a record exactly when its genome (the header before its last '_') is listed |
| ExtractSeqs.GenomesAsWritten | scripts/Extract_Seqs.py:72-81 | method 3 as written can only fail with KeyError |
| ExtractSeqs.GenomesAsWrittenFails | scripts/Extract_Seqs.py:76-79 | as written, a genome `g` with a listed protein `g_p` raises KeyError on its first match |
| ExtractSeqs.GenomesOf | scripts/Extract_Seqs.py:72-81 | corrected method 3 writes in file order the first record headed by each listed protein's genome, each genome at most once, and leaves exactly the genomes that head no record |
| ExtractSeqs.ExcludeSplits | scripts/Extract_Seqs.py:83-90 | method 4 leaves exactly the names that head no record, and every record is either written or used up one name |
| ExtractSeqs.ExcludeLeft | scripts/Extract_Seqs.py:83-90 | the names method 4 leaves are exactly the listed names that head no record it has yet to see |
| ExtractSeqs.ExcludeCounts | scripts/Extract_Seqs.py:83-90 | every record method 4 sees is either written or uses up exactly one listed name |
| ExtractSeqs.ExcludeKeepsUnlisted | scripts/Extract_Seqs.py:86-88 | an unlisted record is always written by method 4 |
| ExtractSeqs.ExcludeKeepsKept | scripts/Extract_Seqs.py:83-90 | what method 4 has written stays written |
| ExtractSeqs.Summary | scripts/Extract_Seqs.py:34-41 | the report: names found, and except for method 2 the written count plus the unused names is the starting count |
| ExtractSeqs.Chosen | scripts/Extract_Seqs.py:25-42 | the output of the chosen method is its written records, and the summary's written count is the records written (method 4: records seen minus those written) |
| ExtractSeqs.Extractor.Apply | scripts/Extract_Seqs.py:25-32 | the dispatch on `-m` leaves the object in the state `Chosen` describes: written records, output and summary |
| ExtractSeqs.Extraction | scripts/Extract_Seqs.py:24-159 | NameError exactly for a FASTA file not starting with '>'; otherwise the output is the written records, and the reported count is the records written (method 4: records minus those written) |
| ExtractSeqs.Extractor.constructor | scripts/Extract_Seqs.py:44-49 | the object starts with the names of the list and nothing written |
| ExtractSeqs.Extractor.ExactNames | scripts/Extract_Seqs.py:51-59 | `method_1` writes and uses up as `Exact` says |
| ExtractSeqs.Extractor.GenomeNames | scripts/Extract_Seqs.py:61-69 | `method_2` writes the records of `Prefixed` and counts them |
| ExtractSeqs.Extractor.ProteinNames | scripts/Extract_Seqs.py:72-81 | corrected `method_3` writes and uses up as `GenomesOf` says |
| ExtractSeqs.Extractor.Unlisted | scripts/Extract_Seqs.py:83-90 | `method_4` writes and uses up as `Exclude` says |
| ExtractSeqs.Run | scripts/Extract_Seqs.py:13-42 | the main path (read the list, parse, run the chosen method, report) ends in the outcome of `Extraction` |
| GenBankFormat.Coords | scripts/genbank_to_fasta.py:136 | `[int(i) for i in parts]` succeeds exactly when every part is an integer, giving those integers, and raises ValueError otherwise |
| GenBankFormat.FeatureLocation | scripts/genbank_to_fasta.py:128-151 | the location fails, exiting with the coordinates message, exactly when both the plain and the `<`/`>`-stripped attempts fail; the orientation is '-' exactly for `complement` |
| GenBankFormat.LocationOfRange | scripts/genbank_to_fasta.py:135-138 | a feature line ending in `a..b` reads as `(a, b, '+')` |
| GenBankFormat.LocationOfComplement | scripts/genbank_to_fasta.py:131-134 | a feature line ending in `complement(a..b)` reads as `(a, b, '-')` |
| GenBankFormat.PartialFirstFails | scripts/genbank_to_fasta.py:136-139 | the first attempt on a partial range `<a..>b` raises ValueError |
| GenBankFormat.PartialBare | scripts/genbank_to_fasta.py:147 | removing `>` then `<` from `<a..>b` leaves `a..b` |
| GenBankFormat.LocationOfPartial | scripts/genbank_to_fasta.py:140-149 | a partial range `<a..>b` reads on the second attempt as `(a, b, '+')` |
| GenBankFormat.ReverseComplement | scripts/genbank_to_fasta.py:305-316 | the reverse complement has the input's length, and base `i` is the complement (or X) of base `n-1-i` |
| GenBankFormat.ReverseComplementInvolution | scripts/genbank_to_fasta.py:305-316 | the reverse complement holds only A, C, G, T and X, and on A/C/G/T text applying it twice gives the text back |
| GenBankFormat.Extract | scripts/genbank_to_fasta.py:311-316 | a location unpacks only with exactly two coordinates; otherwise ValueError |
| GenBankFormat.ExtractInside | scripts/genbank_to_fasta.py:313-316 | inside the genome, '+' gives bases `start..stop` and '-' their reverse complement, `stop-start+1` bases either way |
| GenBankFormat.Pieces | scripts/genbank_to_fasta.py:273 | the 60-character pieces are empty exactly for the empty text |
| GenBankFormat.PiecesShape | scripts/genbank_to_fasta.py:273 | the pieces join back to the text; all but the last have the full width and the last 1 to the width (also line 318) |
| GenBankFormat.WrapUnwrap | scripts/genbank_to_fasta.py:273 | removing the newlines from a wrapped sequence gives it back (also line 318) |
| GenBankFormat.WrapLines | scripts/genbank_to_fasta.py:318 | a wrapped sequence read back line by line is its pieces (also lines 340, 362) |
| GenBankFormat.OriginGenome | scripts/genbank_to_fasta.py:289-298 | at `//` the upper-cased sequence without its newlines is the upper-cased residues, with no space or newline |
| GenBankFormat.TabLineFields | scripts/genbank_to_fasta.py:126 | a row of tab- and newline-free fields is one line that splits back into the fields (also line 320) |
| GenBankFormat.WrittenStrandInPhaseColumn | scripts/genbank_to_fasta.py:320 | as written, a GFF row has nine columns with '.' as strand (column 7) and the orientation as phase (column 8) (also lines 342, 364) |
| GenBank.GffRow | scripts/genbank_to_fasta.py:320 | a GFF row is one line; with tab- and newline-free texts it reads back as its nine fields, the orientation in column 7 (corrected) |
| GenBankFormat.StrandColumn | scripts/genbank_to_fasta.py:320 | the corrected row has the orientation as strand (column 7) and reads back as its nine fields (also lines 342, 364) |
| GenBank.After | scripts/genbank_to_fasta.py:79 | `readline` moves the cursor one line on, and stays at the end of the file |
| GenBank.StripAll | scripts/genbank_to_fasta.py:99 | the stripped view has one entry per line, each the line stripped of whitespace (also lines 161, 236, 288) |
| GenBank.Continue | scripts/genbank_to_fasta.py:171-180 | the continuation loop only moves forward, and fails only with IndexError (an empty line) or its 1000-line exit |
| GenBank.Quoted | scripts/genbank_to_fasta.py:166-178 | a value closed on its own line is `line[skip:-1]` and reads no further line |
| GenBank.ContinueJoins | scripts/genbank_to_fasta.py:171-178 | a continued value is the stripped lines up to the one with the closing quote, joined without line breaks and without the quote |
| GenBank.QualifierValue | scripts/genbank_to_fasta.py:163-168 | a qualifier line `key + v + '"'` closes on its own line with value `v` |
| GenBank.RnaLoop | scripts/genbank_to_fasta.py:153-187 | the RNA loop moves forward and its feature carries the current location |
| GenBank.RnaProduct | scripts/genbank_to_fasta.py:165-185 | a one-line `/product` completes the RNA, named by a `/locus_tag` read before it or else by the generated `{genome}_tRNA_{n}` name |
| GenBank.RnaTagged | scripts/genbank_to_fasta.py:162-185 | a `/locus_tag="t"` line right before a one-line product names the RNA `t` |
| GenBank.AminosLoop | scripts/genbank_to_fasta.py:234-281 | the CDS loop moves forward and its feature carries the current location |
| GenBank.CdsTranslation | scripts/genbank_to_fasta.py:257-278 | a one-line `/translation` completes the CDS with the product read so far, named by its tag or `{genome}_{n}` |
| GenBank.CdsProduct | scripts/genbank_to_fasta.py:240-243 | a one-line `/product` as the first qualifier sets the product and reads on |
| GenBank.CdsRecord | scripts/genbank_to_fasta.py:226-278 | a product then a translation give the CDS its generated name, and its record holds the amino acids wrapped at 60 |
| GenBank.OriginLoop | scripts/genbank_to_fasta.py:286-301 | the ORIGIN loop moves forward |
| GenBank.OriginCollects | scripts/genbank_to_fasta.py:286-298 | the ORIGIN lines up to `//` contribute their residues (after the first space-separated field) and a newline each |
| GenBank.FeatureRows | scripts/genbank_to_fasta.py:309-320 | writing the features fails only with ValueError |
| GenBank.FeatureRowsOk | scripts/genbank_to_fasta.py:309-320 | the records are written exactly when every location is a coordinate pair |
| GenBank.DropBlank | scripts/genbank_to_fasta.py:306-326 | a leading feature named "" is dropped, and otherwise the list is kept |
| GenBank.ParseLocus | scripts/genbank_to_fasta.py:120-126 | IndexError exactly when the LOCUS line has fewer than two double-space fields; otherwise the genome is the second, stripped of spaces |
| GenBank.LocusFields | scripts/genbank_to_fasta.py:120-122 | a LOCUS line `a  g  rest` with space-free `a` and `g` names the genome `g` |
| GenBank.WithLocus | scripts/genbank_to_fasta.py:80-82 | `locus_line` does not move the cursor |
| GenBank.WithLoc | scripts/genbank_to_fasta.py:100-109 | `feature_line` does not move the cursor |
| GenBank.WithCds | scripts/genbank_to_fasta.py:100-103 | `aminos_line` moves the cursor forward |
| GenBank.WithRna | scripts/genbank_to_fasta.py:104-109 | `tRNA_line` and `rRNA_line` move the cursor forward |
| GenBank.WithGenes | scripts/genbank_to_fasta.py:304-320 | `genes` fails with IndexError on a record without CDS and does not move the cursor |
| GenBank.WithRnas | scripts/genbank_to_fasta.py:322-364 | `tRNAs`/`rRNAs` do not move the cursor |
| GenBank.GenesNeedCds | scripts/genbank_to_fasta.py:306 | a record without CDS fails in `genes`; one without tRNAs or rRNAs passes unchanged (also lines 324-330, 346-352) |
| GenBank.WithOrigin | scripts/genbank_to_fasta.py:283-301 | `origin_line` never moves the cursor back |
| GenBank.HeaderLoop | scripts/genbank_to_fasta.py:77-92 | the header loop never moves back, and reaching FEATURES means it read at least one line |
| GenBank.FeatureLoop | scripts/genbank_to_fasta.py:98-113 | a feature loop that ends has moved forward |
| GenBank.NoOriginLoops | scripts/genbank_to_fasta.py:98-113 | a feature table running to the end of the file without a feature or ORIGIN line never ends |
| GenBank.Entry | scripts/genbank_to_fasta.py:70-118 | an entry that leaves more to read has consumed at least one line |
| GenBank.EmptyFile | scripts/genbank_to_fasta.py:67-90 | an empty file ends the run with only the GFF header written |
| GenBank.RecordsOverLimit | scripts/genbank_to_fasta.py:69-118 | `buffer_whole` is never reset, so the 1001st whole record ends the run with "failed to parse GenBank entries" |
| GenBank.ThousandRecordsFail | scripts/genbank_to_fasta.py:69-118 | a file whose first 1001 records all read through fails as a whole |
| GenBank.Folder | scripts/genbank_to_fasta.py:35-39 | the output folder ends in '/' and is the given folder (with '/' added) when one is given |
| GenBank.Arguments | scripts/genbank_to_fasta.py:28-49 | the run goes on exactly when the input exists and the output folder does not |
| GenBank.Converter.constructor | scripts/genbank_to_fasta.py:57-67 | the converter starts on the file's lines with the GFF header written |
| GenBank.Converter.ReadLine | scripts/genbank_to_fasta.py:79 | `readline` returns the current line and moves as `After` says |
| GenBank.Converter.ReadStripped | scripts/genbank_to_fasta.py:99 | `readline().strip()` returns the stripped line and moves as `After` says |
| GenBank.Converter.ContinueValue | scripts/genbank_to_fasta.py:171-180 | the continuation loop computes `Continue` and leaves the cursor where it says |
| GenBank.Converter.QuotedValue | scripts/genbank_to_fasta.py:166-180 | a quoted qualifier computes `Quoted` and leaves the cursor where it says |
| GenBank.Converter.LocusLine | scripts/genbank_to_fasta.py:120-126 | `locus_line` updates the genome and the `.len` output as `WithLocus` says |
| GenBank.Converter.FeatureLine | scripts/genbank_to_fasta.py:128-151 | `feature_line` sets the location as `WithLoc` says |
| GenBank.Converter.RnaBlock | scripts/genbank_to_fasta.py:159-187 | the qualifier loop of the RNA readers computes `RnaLoop` |
| GenBank.Converter.RnaLine | scripts/genbank_to_fasta.py:153-224 | `tRNA_line`/`rRNA_line` count, read and append the RNA as `WithRna` says |
| GenBank.Converter.AminosBlock | scripts/genbank_to_fasta.py:234-281 | the qualifier loop of `aminos_line` computes `AminosLoop` |
| GenBank.Converter.AminosLine | scripts/genbank_to_fasta.py:226-281 | `aminos_line` writes the protein and keeps the CDS as `WithCds` says |
| GenBank.Converter.WriteRows | scripts/genbank_to_fasta.py:309-320 | the write loop of `genes`/`tRNAs`/`rRNAs` computes `FeatureRows` |
| GenBank.Converter.Genes | scripts/genbank_to_fasta.py:304-320 | `genes` writes as `WithGenes` says |
| GenBank.Converter.Rnas | scripts/genbank_to_fasta.py:322-364 | `tRNAs`/`rRNAs` write as `WithRnas` says |
| GenBank.Converter.OriginBlock | scripts/genbank_to_fasta.py:286-301 | the ORIGIN loop computes `OriginLoop` |
| GenBank.Converter.OriginLine | scripts/genbank_to_fasta.py:283-301 | `origin_line` writes the genome and its features as `WithOrigin` says |
| GenBank.Converter.HeaderLines | scripts/genbank_to_fasta.py:77-92 | the header loop computes `HeaderLoop` |
| GenBank.Converter.FeatureLines | scripts/genbank_to_fasta.py:98-113 | the feature loop computes `FeatureLoop`, reporting `Loops` where the script spins forever |
| GenBank.Converter.FeatureStep | scripts/genbank_to_fasta.py:99-113 | one line of the feature loop either ends the loop with the outcome of `FeatureLoop` or moves the cursor on without changing that outcome |
| GenBank.Converter.FeatureBlock | scripts/genbank_to_fasta.py:100-109 | a CDS, tRNA or rRNA line updates the state as `WithFeature` says, or stops with its error |
| GenBank.Converter.CdsFeature | scripts/genbank_to_fasta.py:100-103 | a CDS is counted, its location read and `aminos_line` run, as `WithCdsFeature` says |
| GenBank.Converter.RnaFeature | scripts/genbank_to_fasta.py:104-109 | a tRNA or rRNA has its location read and its reader run, as `WithRnaFeature` says |
| GenBank.Converter.KeepRna | scripts/genbank_to_fasta.py:158 | the end of `tRNA_line`/`rRNA_line` sets the count of its kind and appends the feature to its list, and changes nothing else (also lines 184, 195, 221) |
| GenBank.Converter.EntryLines | scripts/genbank_to_fasta.py:70-118 | one pass of the records loop computes `Entry` |
| GenBank.Converter.ClearLists | scripts/genbank_to_fasta.py:71-73 | the three feature lists are emptied at the start of a record, and nothing else changes |
| GenBank.Converter.ResetCounters | scripts/genbank_to_fasta.py:94-97 | the location and the three counters are reset before the feature table, and nothing else changes |
| GenBank.Converter.ParseGenbank | scripts/genbank_to_fasta.py:57-118 | `parse_genbank` computes `Records` over the whole file |
| LimitLength.Limited | scripts/limit_sequence_length.py:26-54 | the kept records are some of the input records, never more |
| LimitLength.LimitedExactly | scripts/limit_sequence_length.py:29-54 | every record whose length without line breaks is within the bound (inclusive) is written, one-line form, and every written record is such a record |
| LimitLength.AboveBelowPartition | scripts/limit_sequence_length.py:26-40 | `above l` and `below l-1` keep complementary sets of records |
| LimitLength.BetweenEmpty | scripts/limit_sequence_length.py:53 | `between` with a low bound above the high one keeps nothing |
| LimitLength.Limit | scripts/limit_sequence_length.py:12-54 | a run succeeds exactly when every `-l` text is an integer, enough lengths are given and the FASTA parses; no length raises IndexError for `above` and `below`, fewer than two exit for `between`; the text written is the kept records in one-line form |
| LimitLength.Ints | scripts/limit_sequence_length.py:16 | the conversion succeeds exactly when every text is an integer, and then gives their values in order |
| CountLength.RowLines | scripts/count_sequence_length.py:16-18 | one row per record, in input order |
| CountLength.CountLengths | scripts/count_sequence_length.py:13-18 | the table always starts with the heading; it fails exactly when the FASTA is empty or does not start with '>', leaving only the heading; otherwise it is the heading plus one row per record |
| CountLength.RowReadsBack | scripts/count_sequence_length.py:17-18 | a row reads back as its record's header and its length without line breaks |
| CountLength.HeadingIsLine | scripts/count_sequence_length.py:15 | the heading is one whole line |
| CountLength.TableReadsBack | scripts/count_sequence_length.py:13-18 | the table's lines are the heading and the rows, each reading back as its record's header and length, in order |
| HeadersFromFasta.HeaderLines | scripts/headers_from_fasta.py:12-14 | no more lines are written than read |
| HeadersFromFasta.HeaderLinesExactly | scripts/headers_from_fasta.py:12-14 | every line starting with '>' is copied without it, and nothing else is copied |
| HeadersFromFasta.HeaderLinesAreTexts | scripts/headers_from_fasta.py:12-14 | the copied lines are the header texts, each ending in its newline |
| HeadersFromFasta.ExtractIsParsedHeaders | scripts/headers_from_fasta.py:10-14 | the output has one line per record `fasta_parse` yields, holding its header |
| HeadersFromFasta.OutputPath | scripts/headers_from_fasta.py:30-32 | `-o` when given, else the input path with its last extension replaced by `.accnos` |
| HeadersFromFasta.Run | scripts/headers_from_fasta.py:29-37 | the run exits exactly when the output path exists, and otherwise writes the extracted headers there |
| SplitHmms.SplitModels | scripts/split_hmms_to_files.py:9-23 | the loop leaves the files the scan over the lines writes |
| SplitHmms.ScanAppend | scripts/split_hmms_to_files.py:13-23 | scanning two pieces of a file in turn is scanning the whole |
| SplitHmms.WritesCount | scripts/split_hmms_to_files.py:16-21 | earlier writes stay and each `//` line writes exactly one file |
| SplitHmms.TailNeverWritten | scripts/split_hmms_to_files.py:22-23 | lines after the last `//` are never written |
| SplitHmms.FilesKeys | scripts/split_hmms_to_files.py:17 | the files that exist are exactly the paths written |
| SplitHmms.FilesLast | scripts/split_hmms_to_files.py:17 | a file holds the last model written to its path |
| SplitHmms.ScanPlain | scripts/split_hmms_to_files.py:22-23 | other lines only extend the buffer |
| SplitHmms.Expected | scripts/split_hmms_to_files.py:17-20 | one file per model, at `{folder}{name}.hmm`, holding the model's lines and `//` |
| SplitHmms.EndLine | scripts/split_hmms_to_files.py:16 | a `//` line closes a model |
| SplitHmms.NameLineRead | scripts/split_hmms_to_files.py:14-15 | a name line is recognised and gives the last space-separated word as the name |
| SplitHmms.HmmRead | scripts/split_hmms_to_files.py:13-21 | one well-formed model writes its file and empties the buffer |
| SplitHmms.RoundTrip | scripts/split_hmms_to_files.py:9-23 | a file of well-formed models writes each model in order, under its own name, without its name line and closed by `//` |
| SplitHmms.UnnamedFailed | scripts/split_hmms_to_files.py:12-20 | a model before any name line goes to `FAILED.hmm` |
| SplitHmms.PathOfInjective | scripts/split_hmms_to_files.py:17 | different names give different files |
| SplitHmms.RoundTripFiles | scripts/split_hmms_to_files.py:9-23 | with distinct names, every model ends up in its own file with its own contents |
| SplitHmms.ChosenPrefixAllFailed | scripts/split_hmms_to_files.py:14 | with `-n NAME` or `-n ACC` the prefix is one letter, no name line matches, and every model is written to `FAILED.hmm` (also lines 35, 42) |
| SplitHmms.Prefix | scripts/split_hmms_to_files.py:14 | the intended prefix is the whole tag `NAME` or `ACC`, which name lines match (also lines 35, 42) |
| Prophages.Fields | scripts/prophages_from_vibrant.py:25-26 | the split row is never empty, so the blank-row guard never skips |
| Prophages.ParseRow | scripts/prophages_from_vibrant.py:25-31 | a row succeeds exactly when it has seven fields and columns 5 and 6 are integers, giving scaffold, fragment, start and stop; short rows raise IndexError |
| Prophages.BlankRowFails | scripts/prophages_from_vibrant.py:26-28 | a blank row raises IndexError |
| Prophages.Coords | scripts/prophages_from_vibrant.py:24-33 | the table is read exactly when every row parses |
| Prophages.CoordsFailedStays | scripts/prophages_from_vibrant.py:24-33 | once a row fails, later rows do not change the outcome |
| Prophages.GetCoords | scripts/prophages_from_vibrant.py:20-33 | an empty table raises StopIteration; otherwise the rows after the header are read |
| Prophages.CoordsGroups | scripts/prophages_from_vibrant.py:33 | each scaffold holds exactly its own rows in table order, and only scaffolds with rows are present |
| Prophages.StrippedIsBare | scripts/prophages_from_vibrant.py:45-46 | stripping each sequence line is removing the line breaks of the sequence |
| Prophages.BareRecords | scripts/prophages_from_vibrant.py:35-48 | the scaffolds are the records, each sequence without line breaks |
| Prophages.Cut | scripts/prophages_from_vibrant.py:55-58 | one fragment per coordinate entry, each excised from the scaffold |
| Prophages.ExcisedExactly | scripts/prophages_from_vibrant.py:50-58 | one output record per coordinate entry of a scaffold in the file, and each output record is excised from such a scaffold |
| Prophages.NoCoordsNothing | scripts/prophages_from_vibrant.py:53-54 | a scaffold without coordinates adds nothing |
| Prophages.ExciseInside | scripts/prophages_from_vibrant.py:57 | with coordinates inside the scaffold the fragment is the bases from start to stop, both included |
| Prophages.Run | scripts/prophages_from_vibrant.py:11-17 | the run fails exactly when the table is empty, a row fails, or the FASTA fails; otherwise it writes the excised fragments (also lines 50-58) |
| LengthStats.Cutoffs | scripts/sequence_length_stats.py:28-29 | the cutoffs are 0 then each kb value times 1000 |
| LengthStats.CountAtLeast | scripts/sequence_length_stats.py:60 | the count of long sequences is at most the number of sequences |
| LengthStats.Update | scripts/sequence_length_stats.py:59-61 | `dict.update` keeps the size or adds one key |
| LengthStats.Bins | scripts/sequence_length_stats.py:55-61 | the binning loop computes `Final`, the bins plus the last open bin |
| LengthStats.Expected | scripts/sequence_length_stats.py:56-59 | one bin per consecutive pair of cutoffs, counting the lengths in that range |
| LengthStats.UpdateNew | scripts/sequence_length_stats.py:59 | a new key is appended in insertion order |
| LengthStats.BinsAreExpected | scripts/sequence_length_stats.py:55-59 | with increasing cutoffs each pair of cutoffs has its own bin, in order |
| LengthStats.CountSplit | scripts/sequence_length_stats.py:58-60 | the counts at or above `a` split at `b` into those below `b` and those at or above it |
| LengthStats.CountAtLeastZero | scripts/sequence_length_stats.py:60 | every length is at least 0 |
| LengthStats.ExpectedTelescopes | scripts/sequence_length_stats.py:56-60 | the bins plus the sequences past the last cutoff count every sequence |
| LengthStats.BinsPartition | scripts/sequence_length_stats.py:55-61 | with increasing cutoffs the bins are the expected ones plus the open bin, and their counts add up to the number of sequences |
| LengthStats.RepeatedCutoffOverwrites | scripts/sequence_length_stats.py:55-61 | with cutoffs 0, 1000, 5000, 5000, 10000 a sequence of 2000 lands in no bin: the second 5000 replaces the count of [1000, 5000) with that of the empty range, and there are four counts for five header columns |
| LengthStats.LengthRows | scripts/sequence_length_stats.py:46-49 | one row per sequence, in order |
| LengthStats.Measured | scripts/sequence_length_stats.py:51-53 | each `fasta_parse` record gives its header and its length without line breaks (the script's own parser agrees when no title ends in whitespace and no sequence line holds a blank) |
| LengthStats.ListingIsCountTable | scripts/sequence_length_stats.py:44-49 | on `Measured` pairs, the 'none' listing is the table `count_sequence_length.py` writes |
| LengthStats.Holder | scripts/sequence_length_stats.py:53 | the lengths, in order |
| LengthStats.Run | scripts/sequence_length_stats.py:23-68 | `none` in any case writes the listing; otherwise the header line, the base and the bin counts |

## Left out

- `annoVIBRANT/annoVIBRANT.py` is not part of this model. It is the orchestration: argument checks, launching the parallel workers and waiting for them.
- `annoVIBRANT/scripts/hmm_run.py` and `annoVIBRANT/scripts/run_prodigal.py` are not part of this model. They are external tool calls.
- `combine_clean.py`'s `combine_annotations`, `combine_prodigal`, `combine_hmms` and `cleanup` are left out. They run `cat`, `sed` and `rm` through a subprocess.
- `scripts/PyLogger.py` and `scripts/filter_coverage_file.py` are not part of this model.
- Argument parsing is left out. The model takes the parsed values as parameters, and `argparse` enforces the `choices` lists.
- `__main__` blocks are left out except where a member models them. This includes the `os.path.exits` typo in `prophages_from_vibrant.py`: the script raises AttributeError before it does any work.
- Progress messages, timing and elapsed-time printing are left out.
- `info.log` is left out.
- Gzip input to `Extract_Seqs.py` is left out. The model reads plain text.
- Biopython's `SimpleFastaParser` is left out. `sequence_length_stats.py` takes (name, length) pairs.
- `LengthStats.Measured` and `LengthStats.ListingIsCountTable`: the pairs are those of `fasta_parse.py` records (header `line[1:]` without its newline, every character but '\n' counted). `SimpleFastaParser` also strips trailing whitespace from titles and removes blanks from sequence lines, so the two agree only when no title ends in whitespace and no sequence line holds a blank; the listing can differ from `count_sequence_length.py`'s table otherwise.
- Floats are `real`. Parsing and printing them are parameters, so float rounding is not modelled.
- Partial output is left out: when a script raises midway, the model returns the error, not the half-written file.
- Outside the members that model them, checks that an output file or folder already exists are parameters.
- The concurrency of the parallel phases is left out, because every worker writes its own files.
- `GenBank.FeatureLoop`: a run that loops forever is reported as `Loops` rather than not terminating.
- `GenBank.LocusFields`: states the genome for LOCUS lines of a common shape only. `GenBank.ParseLocus` states the general case.
- `SplitHmms.SplitModels`: the output folder's trailing `/` is added before the call, as in the script, and creating the folder is not modelled.
- `Tables.SortBy`: pandas' default sort is not stable. The model sorts stably, but the lemmas about sorted tables hold for every sorted permutation.
- Shard names with more than one character are left out. Each worker's files are found by taking the first character of a shard file name as its base (annoVIBRANT/annoVIBRANT.py:93, 105) and by matching the rest with `f[1:]` (annoVIBRANT/scripts/combine_clean.py:59-61, 95-97). So the pipeline as written handles at most 9 threads, and the model treats each shard index as a single character.
- `Strings.Upper`: changes only the ASCII letters `a` to `z`, where Python's `str.upper` follows Unicode. The same holds for `Strings.Lower` and `str.lower`. In the model this matters for the ORIGIN upper-casing in `genbank_to_fasta.py` and the `none` test in `sequence_length_stats.py`.
- `Numbers.ParseInt`: accepts an optional sign, surrounding whitespace and ASCII digits only. Python's `int()` also accepts `_` between digits (`1_000`) and non-ASCII digits, which the model rejects with ValueError.
- `SplitSeqs.Split`: names the files with the corrected `Prefix`. The script uses `rsplit('/')[0]` (scripts/split_seqs_to_files.py:55-56), so a path `data/x.fa` gives the prefix `data` there. The as-written prefix is `SplitSeqs.WrittenPrefix`, and the difference is a row under Findings.
- `SplitSeqs.Run`: ends in `Split`, so it uses the corrected `Prefix` rather than the script's `rsplit('/')[0]`.
- `EditHeaders.Checked`: applies the corrected part test `Part` for methods 7 and 8. The script's test exits for every `-s` value (scripts/edit_fasta_headers.py:100-104, 111-115); that behaviour is `EditHeaders.PartAlwaysRejected` under Findings.
- `EditHeaders.Edit`: uses the corrected `Base` for methods 1 and 2 and the corrected part test through `Checked`. The script takes the directory as the base and always exits for methods 7 and 8; both are rows under Findings.
- `ExtractSeqs.Extraction`: runs the corrected method 3 (`GenomesOf`). The script removes the genome name from the set of listed proteins and raises KeyError (scripts/Extract_Seqs.py:76-79); that is `ExtractSeqs.GenomesAsWrittenFails` under Findings.
- `ExtractSeqs.Run`: ends in `Extraction`, so method 3 is the corrected one there too.
- `ExtractSeqs.Chosen`: runs the corrected method 3 (`GenomesOf`), where the script raises KeyError.
- `ExtractSeqs.Extractor.Apply`: dispatches `-m 3` to the corrected `ProteinNames`, so it runs `GenomesOf` rather than the script's failing `method_3`.
- `ExtractSeqs.Extractor.ProteinNames`: is the corrected `method_3`; it uses up the genome names, where the script removes the genome name from the set of listed proteins and raises KeyError (scripts/Extract_Seqs.py:76-79).
- `GenBank.GffRow`: writes the orientation in column 7 (strand) and `.` in column 8 (phase). The script writes `.` then the orientation (scripts/genbank_to_fasta.py:320, 342, 364); that layout is `GenBankFormat.WrittenStrandInPhaseColumn` under Findings. Every GFF writer below uses `GffRow`, so each of them writes the corrected layout.
- `GenBank.FeatureRows`: its GFF rows come from `GffRow`, with the corrected column layout.
- `GenBank.WithGenes`: writes its CDS rows through `FeatureRows`, with the corrected column layout.
- `GenBank.WithRnas`: writes its tRNA and rRNA rows through `FeatureRows`, with the corrected column layout.
- `GenBank.WithOrigin`: writes its GFF rows through `WithGenes` and `WithRnas`, with the corrected column layout.
- `GenBank.Entry`: writes its GFF rows through `WithOrigin`, with the corrected column layout.
- `GenBank.Converter.WriteRows`: equals `FeatureRows`, with the corrected column layout.
- `GenBank.Converter.Genes`: as `WithGenes`, with the corrected column layout.
- `GenBank.Converter.Rnas`: as `WithRnas`, with the corrected column layout.
- `GenBank.Converter.OriginLine`: as `WithOrigin`, with the corrected column layout.
- `GenBank.Converter.EntryLines`: equals `Entry`, with the corrected column layout.
- `GenBank.Converter.ParseGenbank`: equals `Records`, with the corrected column layout. The 1000-record exit that `Records` carries is stated by `GenBank.RecordsOverLimit` and `GenBank.ThousandRecordsFail`.

## Findings

Each row below has a member that models the code as written, with a lemma that shows the difference, and a corrected member that the rest of the model uses.

| source | as written | input that shows it | evidently intended | confidence | as-written member | corrected member |
|---|---|---|---|---|---|---|
| scripts/split_seqs_to_files.py:55-56 | the file prefix is `rsplit('/')[0]` of the input path, which is its first path component | `-f /x.fa` gives the prefix `""` instead of `x` | the file name without its extension | high, not executed | SplitSeqs.WrittenPrefixOfAbsolutePath | SplitSeqs.PrefixOfPath |
| scripts/split_seqs_to_files.py:43,84 | "New files created" reports the file counter, which has already moved past a last file that filled up exactly | 2 records with `-s 1` report 3 files where 2 are written | the number of files written | high, not executed | SplitSeqs.ReportedFilesOffByOne | SplitSeqs.FilesCreatedCount |
| scripts/genbank_to_fasta.py:320,342,364 | the strand is written in the GFF phase column (column 8), and column 7 holds `.` | any CDS, tRNA or rRNA row | strand in column 7 | high, not executed | GenBankFormat.WrittenStrandInPhaseColumn | GenBankFormat.StrandColumn |
| scripts/Extract_Seqs.py:76-79 | method 3 writes a record whose header is the genome of a listed protein, then removes that header from the set of listed names, where only the protein is | list `g_p` with a record named `g` raises KeyError | write each listed protein's genome once | high, not executed | ExtractSeqs.GenomesAsWrittenFails | ExtractSeqs.GenomesOf |
| scripts/edit_fasta_headers.py:100-104,111-115 | the part test is `s != 0 or s != 1` on a string, which is always true | the default `-s` and `-s 1` both exit | accept 0 (default) or 1 | high, not executed | EditHeaders.PartAlwaysRejected | EditHeaders.Part |
| scripts/edit_fasta_headers.py:52-57 | `get_base` takes `rsplit('/', 1)[0]`, the directory | `dir/stem.ext` gives the base `dir` | the file name without its extension, `stem` | high, not executed | EditHeaders.BaseOfPath | EditHeaders.Base |
| scripts/split_hmms_to_files.py:14,35,42 | `args.n[0]` takes the first letter of `NAME` or `ACC` when `-n` is given | `-n NAME` writes every model to `FAILED.hmm` | match the `NAME` or `ACC` line | high, not executed | SplitHmms.ChosenPrefixAllFailed | SplitHmms.Prefix |
