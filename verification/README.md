# Protein and interaction counts for PPI edge lists

`data/stat.py` reports, for a protein-protein-interaction (PPI) edge list, how
many distinct proteins and how many interactions it holds. Each line of the
file is one interaction: its first two whitespace-separated columns are the
IDs of the two interacting proteins, and further columns are ignored. The
function `stats` builds the list of those pairs (one per line), adds both IDs
of every pair to a set, and returns `(len(proteins), len(interactions))`. A
line with fewer than two columns, a blank line included, makes the unpacking
`p1, p2` raise `ValueError`.

This project models `stats` and its inner `partners` in Dafny and proves what
they compute.

- `tokens.dfy`, module `Tokens`: Python 2's `str.split()` without argument and
  `str.strip()` on the byte strings a text file yields. Whitespace is the six
  ASCII characters space, tab, line feed, carriage return, vertical tab and
  form feed. `Split` is defined character by character. Lemmas describe it:
  every token is non-empty and free of whitespace; the tokens put together
  are the line without its whitespace; any whitespace character is dropped
  and separates the tokens around it; and it inverts `" ".join`.
- `stat.dfy`, module `PpiStats`: `Partners` (the inner `partners`),
  `Interactions` (the list comprehension), and the loop that fills the set.
  That loop is the method `ComputeStats`, whose while loop adds `p1` and `p2`
  to a local set and is proved equal to the function `Stats`. `Stats` returns
  `Ok(Counts(proteins, interactions))` or `Err(UnpackError(line, found))` for
  the `ValueError`, where `line` is the 0-based index of the first line that
  cannot be unpacked and `found` is how many tokens it had.

The file is given as the sequence of its lines (`seq<string>`), each still
carrying its line terminator if it had one. The terminator is whitespace to
`split()`, so it never reaches a token.

A line with fewer than two tokens makes the unpacking at data/stat.py:10
raise `ValueError`; the model returns it as `Err(UnpackError(line, found))`.

## Model

| member | source | states |
|---|---|---|
| Tokens.Split | data/stat.py:6 | a line whose first character is not whitespace has at least one token |
| Tokens.SplitTokens | data/stat.py:6 | every element `split()` returns is non-empty and holds no whitespace |
| Tokens.ConcatSplit | data/stat.py:6 | the tokens, concatenated, are the line with every whitespace character removed |
| Tokens.SplitToken | data/stat.py:6 | a single token splits into itself |
| Tokens.SplitSpace | data/stat.py:6 | a whitespace character at the start of a line is dropped: the line splits like the rest of it (one-step unfolding) |
| Tokens.SplitAt | data/stat.py:6 | any whitespace character inside a line is dropped and separates the tokens before it from those after it |
| Tokens.SplitAppend | data/stat.py:6 | splitting `a + b`, where `b` starts with whitespace, gives the tokens of `a` followed by those of `b` |
| Tokens.SplitJoin | data/stat.py:6 | `split()` inverts `" ".join()` on any sequence of tokens |
| Tokens.SplitBlank | data/stat.py:6 | a line made only of whitespace, the empty line included, has no tokens |
| Tokens.Strip | data/stat.py:6 | `strip()` leaves a token unchanged |
| Tokens.StripLeftSpec | data/stat.py:6 | `lstrip()` drops only leading whitespace and keeps a suffix that does not start with whitespace |
| Tokens.StripRightSpec | data/stat.py:6 | `rstrip()` drops only trailing whitespace and keeps a prefix that does not end with whitespace |
| PpiStats.StripEachTokens | data/stat.py:6 | `[e.strip() for e in es]` is `es` when every element is a token |
| PpiStats.PartnersSpec | data/stat.py:6 | `partners(line)` is the first `min(2, n)` tokens of the line's `n` tokens, unchanged by `strip()`, each a token |
| PpiStats.InteractionsAt | data/stat.py:8 | the interactions list has one entry per line, entry `i` is `partners(lines[i])`, and it has two IDs exactly when line `i` has at least two tokens, otherwise as many as the line has tokens |
| PpiStats.FirstUnpackable | data/stat.py:10 | finds the first pair that does not hold exactly two IDs, or reports that every pair holds two |
| PpiStats.StatsOutcome | data/stat.py:5-12 | `stats` succeeds exactly when every line has at least two tokens, then reports one interaction per line; otherwise it fails at the first short line, with that line's token count (0 or 1) |
| PpiStats.ComputeStats | data/stat.py:5-12 | the loop that adds `p1` and `p2` of each interaction to a set returns exactly `Stats(lines)`, on success and on the unpacking error |
| PpiStats.FailsAt | data/stat.py:10 | the unpacking fails at the first interaction that does not hold two IDs (one-step unfolding of the definition) |
| PpiStats.Succeeds | data/stat.py:9-12 | when every interaction holds two IDs, the result is the size of the protein set and the number of lines (one-step unfolding of the definition) |
| PpiStats.ProteinSetSnoc | data/stat.py:10-11 | one more interaction adds exactly its IDs to the protein set (one-step unfolding of the definition) |
| PpiStats.ProteinSetPair | data/stat.py:10-11 | a pair `p1, p2` adds `p1` and then `p2` to the set, the loop body (one-step unfolding of the definition) |
| PpiStats.InProteinSet | data/stat.py:10-11 | every ID of every interaction ends up in the set |
| PpiStats.ProteinSetSource | data/stat.py:10-11 | every element of the set is an ID of some interaction |
| PpiStats.ProteinSetIsFirstTwoColumns | data/stat.py:6-11 | the set the loop builds equals the set of all first and second columns over all lines |
| PpiStats.ProteinCount | data/stat.py:12 | the protein count is the number of distinct first-or-second-column IDs |
| PpiStats.IdsBound | data/stat.py:10-11 | a pair adds at most as many distinct proteins as it holds IDs, whatever its length |
| PpiStats.ProteinSetBound | data/stat.py:9-11 | the set has at most twice as many elements as there are pairs |
| PpiStats.ProteinsAtMostTwiceInteractions | data/stat.py:9-12 | the protein count is at most twice the interaction count |
| PpiStats.EmptyInput | data/stat.py:8-12 | an empty file gives `(0, 0)` (one-step unfolding of the definition) |
| PpiStats.SomeProtein | data/stat.py:9-12 | a non-empty file that `stats` accepts has at least one protein |
| PpiStats.InteractionsSnoc | data/stat.py:8 | one more line adds its partners at the end of the interactions list (one-step unfolding of the definition) |
| PpiStats.ProteinsAfterLine | data/stat.py:8-11 | one more line with two tokens adds exactly those two IDs to the set |
| PpiStats.AppendLine | data/stat.py:8-12 | appending a line with two tokens keeps `stats` successful, adds one interaction, and adds the line's two IDs to the set |
| PpiStats.SelfInteraction | data/stat.py:10-12 | a line whose two tokens are equal adds one interaction and one protein if that ID is new, none otherwise |
| PpiStats.PartnersInProteinSet | data/stat.py:6-11 | both partners of any line with two tokens are in the set |
| PpiStats.DuplicateLine | data/stat.py:8-12 | repeating a line of the file adds one interaction and no protein |
| PpiStats.ProteinSetMembers | data/stat.py:6-11 | an ID is in the set exactly when it is a partner on some line |
| PpiStats.SameLinesSameProteins | data/stat.py:8-11 | two files with the same set of lines have the same protein set |
| PpiStats.Permutation | data/stat.py:8-12 | reordering the lines changes neither whether `stats` fails nor, when it succeeds, either count |
| PpiStats.ExtraColumns | data/stat.py:6 | appending whitespace and more columns to a line with two tokens leaves its partners unchanged |
| PpiStats.ExtraColumnsInFile | data/stat.py:6-12 | adding columns to any line of an accepted file changes neither count |
| PpiStats.BlankLineFails | data/stat.py:6-10 | a blank or all-whitespace line makes `stats` fail, at that line with no tokens unless an earlier line fails first |

## Left out

- `main` (data/stat.py:14-18): it lists files with `glob` and prints a formatted row per file. This is file-system I/O and console output only.
- The file read (data/stat.py:7): the model takes the lines of the file as input. How Python cuts a file into lines is not modelled.
- `install/go2ppi/networks/pos_only/annotate.py`: it builds a shell command and runs an external Java program that queries the UniProt website. It is a wrapper around a foreign process and the network.
- Whitespace: the model uses Python 2's six ASCII whitespace characters for byte strings. Python 3's `str.split()` also treats other Unicode spaces as whitespace; that wider set is not modelled.
- Bytes: the source is Python 2, so each line is a byte string; the model uses one `char` per byte. The counts depend only on whether IDs are equal, which any fixed one-to-one mapping of bytes to characters keeps.
- The text of the `ValueError` message is not modelled; the error records the line index and the number of tokens found.
