# force_align: a verified model of the fast_align forced-alignment front end

`src/force_align.py` aligns new sentence pairs with fast_align models that
were already trained. It works in three steps:

1. It reads the two training logs (forward and reverse) to recover each
   model's hyperparameters, the tension `T` and the length-ratio mean `m`.
   This is `Aligner.read_err`.
2. It starts three helper processes: a forward fast_align, a reverse
   fast_align (`-r`) and an `atools` symmetrizer. Each gets a command line
   built from those parameters, and the symmetrizer gets the heuristic
   (`grow-diag-final-and` by default). This is `Aligner.__init__`.
3. For each sentence pair `f words ||| e words`, it writes the pair to both
   aligners and reads one reply from each. It cuts the link field (the third
   `|||`-separated field) out of each reply, strips it, and sends the two
   link lines to the symmetrizer, forward first. It returns the
   symmetrizer's stripped reply. This is `Aligner.align`.

The model has five modules:

- `Wrappers` holds the `Option` and `Result` types.
- `PyStr` models the Python string operations the script relies on (`in`,
  `split(sep)`, `split()`, `strip()`) for Python 2 byte strings, where
  whitespace is the six ASCII characters `str.isspace` accepts. `Find` is
  the left-to-right search for the separator that `split('|||')` performs.
- `ErrLog` models `read_err`. `LogParams` is its specification, and the
  `ReadErr` loop is proved equal to it.
- `Commands` holds the three command lines. It also has a getopt-style
  reader (`ParseArgs`, `Lookup`), an independent reading that shows what
  each helper program receives.
- `ForceAlign` holds the link-field extraction and the `Aligner` class.

In the `Aligner` class, each external process is the function from the
line it was just sent to the line it answers. The lines written to each process's stdin
are recorded in a sequence field, without their trailing newline. The
ghost invariant `InSync` states the lock-step protocol: both aligners have
been sent the same pairs, and for each pair in order, the symmetrizer has
been sent the forward link field and then the reverse one.

Python's `IndexError` on a reply with fewer than three fields becomes
`None` in `LinkField`. In `Align` it becomes a `Failure` that names the
aligner whose reply was malformed. After such a failure the processes are
out of step: `InSync` no longer holds. In the script, this is the point
where the exception leaves the pipes half-written.

The log scan tests the two markers with `if … elif …`, so a line holding
both markers only updates `m`, never `T`: `ErrLog.SetsTension` requires the
absence of the mean marker, and `ErrLog.Scan` states that such a line
leaves `T` as it was.

A pair is one input line: `main` reads it with `readline()` and strips it,
so it holds no newline, and `Align` requires exactly that.

The successful path of `Align` models the intended behaviour on text
strings. As written, the script does not reach it in either Python; the
three failures are listed under "## Left out".

## Model

| member | source | states |
|---|---|---|
| ErrLog.LogParams | src/force_align.py:58-67 | what `read_err` returns for a log; both values are empty or a single token without whitespace |
| ErrLog.ReadErr | src/force_align.py:58-67 | the line-by-line loop with `if`/`elif` returns exactly `LogParams` of the log |
| ErrLog.MeanFromLastMarker | src/force_align.py:62-63 | `m` is the last token of the last line containing `expected target length`, so later matches win |
| ErrLog.TensionFromLastMarker | src/force_align.py:64-66 | `T` is the last token of the last line that contains `final tension` and not the mean marker (the `elif`) |
| ErrLog.MeanSetIff | src/force_align.py:59-63 | `m` is non-empty if and only if some line contains `expected target length` |
| ErrLog.TensionSetIff | src/force_align.py:59-66 | `T` is non-empty if and only if some line sets it under the `elif` |
| ErrLog.NoMarkers | src/force_align.py:59-67 | a log in which neither marker appears gives `('', '')` |
| ErrLog.DropNeutralLine | src/force_align.py:60-66 | deleting a line that holds neither marker, anywhere in the log, changes nothing |
| ErrLog.AppendNeutral | src/force_align.py:60-66 | appending lines that hold neither marker changes nothing |
| ErrLog.MarkerLineHasToken | src/force_align.py:62-66 | a line with either marker has a last token, so `split()[-1]` cannot fail there |
| ErrLog.ReadErrExample | src/force_align.py:58-67 | the two summary lines fast_align prints give back `("4.2731", "1.0231")`, tension first |
| PyStr.Contains | src/force_align.py:62-65 | `sub in s`: the text occurs at some position of the line |
| ErrLog.Scan | src/force_align.py:62-66 | one pass of the loop body: a line without markers changes nothing; a mean line sets `m` to a non-empty token and keeps `T`; a tension line (without the mean marker) sets `T` and keeps `m` |
| PyStr.Find | src/force_align.py:43-44 | the search inside `split('|||')`: the first position where the separator occurs, or none exactly when it does not occur |
| PyStr.Split | src/force_align.py:43-44 | `split(sep)` gives at least one piece, and no piece contains the separator |
| PyStr.JoinSplit | src/force_align.py:43-44 | joining the pieces of `split(sep)` with the separator gives back the line |
| PyStr.SplitJoin | src/force_align.py:43-44 | splitting a join of separator-free pieces gives back the pieces |
| PyStr.Tokens | src/force_align.py:63 | `split()` gives non-empty tokens without whitespace, and none exactly for a blank line |
| PyStr.LastToken | src/force_align.py:63 | `split()[-1]` of a non-blank line is non-empty and has no whitespace |
| PyStr.LastTokenCharacterized | src/force_align.py:63 | the last token of `a + w + b` is `w` when `w` is a word, `b` is blank and `a` is empty or ends in whitespace |
| PyStr.Strip | src/force_align.py:43-44 | `strip()` leaves no whitespace at either end and returns a piece of its input |
| PyStr.StripUnique | src/force_align.py:47 | stripping blank padding from a word-bounded text gives back exactly that text |
| Commands.ForwardCommand | src/force_align.py:31 | the forward command line has eleven elements and starts with the fast_align path |
| Commands.ReverseCommand | src/force_align.py:32 | the reverse command line is a forward-shaped command line with `-r` appended |
| Commands.SymmetrizerCommand | src/force_align.py:33 | the symmetrizer command line ends with `-c` followed by the heuristic |
| Commands.ReverseCommandShape | src/force_align.py:31-32 | the reverse command line differs from the forward one only in `T`, `m` and the parameter file, plus the trailing `-r` |
| Commands.DefaultSymmetrizerCommand | src/force_align.py:22-33 | without an explicit heuristic the symmetrizer is asked for `grow-diag-final-and` |
| Commands.ForwardCommandReadsBack | src/force_align.py:31 | read as options, the forward command line gives `-T`, `-m`, `-f` and `-i -` their values and sets `-d` and `-s` but not `-r` |
| Commands.ReverseCommandReadsBack | src/force_align.py:32 | read as options, the reverse command line gives the same options and also sets `-r` |
| Commands.SymmetrizerCommandReadsBack | src/force_align.py:33 | read as options, the symmetrizer command line reads `-i` and `-j` from stdin and gets the heuristic after `-c` |
| ForceAlign.LinkField | src/force_align.py:43-44 | `split('\|\|\|')[2].strip()`: defined exactly when the reply has at least three fields, where Python raises IndexError otherwise |
| ForceAlign.LinkFieldShape | src/force_align.py:43-44 | the link field exists exactly when the reply has at least three fields; it has no whitespace at either end and no `\|\|\|` |
| ForceAlign.LinkFieldOfFields | src/force_align.py:42-44 | on a reply `f \|\|\| e \|\|\| links \|\|\| score` made of separator-free fields, the link field is the stripped third field |
| ForceAlign.LinkFieldExample | src/force_align.py:42-44 | both example replies `le chat \|\|\| the cat \|\|\| 0-0 1-1 \|\|\| score` give the links `0-0 1-1` |
| ForceAlign.LinksOfAppend | src/force_align.py:39-44 | one more pair sent to an aligner adds the link field of one more reply |
| ForceAlign.SyncedAppend | src/force_align.py:45-46 | sending both link fields of a pair, forward then reverse, keeps the symmetrizer in step with the aligners |
| ForceAlign.Aligner.constructor | src/force_align.py:22-37 | both logs are read, the three command lines are built from the recovered parameters and the heuristic, nothing has been sent yet, and the processes are in step |
| ForceAlign.Aligner.Align | src/force_align.py:39-48 | for a pair without an embedded newline, the pair is sent once to each aligner; on well-formed replies the symmetrizer is sent exactly the two link fields, forward first, and the stripped reply is returned; a malformed reply is reported; the call succeeds if and only if the processes stay in step |
| ForceAlign.LeChatScenario | src/force_align.py:39-48 | with stub processes, aligning `le chat \|\|\| the cat` sends `0-0 1-1` twice to the symmetrizer and returns `0-0 1-1` |

## Left out

- `popen_io` and its stderr-draining thread: process creation and concurrency are not modelled. Each process is a function from the line it was just sent to the line it answers.
- `Aligner.close`: closing the pipes and waiting for the processes is I/O with no result to model.
- `main`: argument-count checking, reading stdin and printing results are I/O around the modelled `Aligner`.
- Path resolution in `__init__` (`os.path.dirname(os.path.abspath(__file__))`): the fast_align and atools paths are parameters of the constructor.
- Opening the log files in `read_err`: a log is given as its sequence of lines, and I/O errors are not modelled.
- The external fast_align and atools binaries: their alignments and the symmetrization heuristics are opaque functions.
- The UTF-8 encoding of the lines written to the aligners, and the bytes/str distinction: lines are Dafny strings, and `Align` models the intended text behaviour. As written, the script fails in three ways that the model does not reproduce:
- Python 2 refuses to compile the file: lines 15-16 hold non-ASCII comments and there is no coding declaration (PEP 263).
- Under Python 3 the pipes are binary, so `readline()` returns bytes and `bytes.split('|||')` at line 43 raises TypeError on every call, after the pair was written to both aligners; lines 45-46 also write `str` to a binary pipe.
- Under Python 2 semantics, `.encode('utf-8')` at lines 40-41 raises UnicodeDecodeError for any pair holding a non-ASCII byte.
- Python 3 Unicode whitespace for `split()` and `strip()`: the model uses the Python 2 byte-string definition (six ASCII characters).
- The trailing newline `readline` keeps on each reply: it is whitespace, so `strip()` removes it and it does not change any result.
- ForceAlign.Aligner.Align: replies are a function of the current pair only, so a process whose answer depends on earlier input is not modelled.
- ForceAlign.Aligner.Align: each aligner reply is one `readline()` line, with no newline except at its end, and the pair must hold no newline; a pair with an embedded newline would make each aligner answer twice while `align` reads one reply, leaving a stale reply for the next call, which the model does not capture.
