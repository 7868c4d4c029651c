# Manifest extraction, modelled in Dafny

This project models the manifest-reading core of a small sequencing-data
ingestion tool. The tool reads two kinds of manifest files:

- **`extract_ill_data`** reads an Illumina "tree" listing.
  - Every line that ends in `gz` is split on `_`.
  - The first four parts, plus the whole line, go to `IlluminaDataModel`.
- **`extract_nanopore_data`** reads a Nanopore listing.
  - A line starting with `nanopore` is a header. It sets the `parent` directory and the run date `seq_date`.
  - Every other line builds a `NanoporeDataModel` from:
    - that date;
    - the barcode: the last two characters (or all of them, when there are fewer) of the text before the first `.` of the line's last space token;
    - `parent + "/" + file name` (the path).

A record whose validators all pass is appended to `data`. A record that pydantic rejects adds
an entry to `errors`. Any other exception ends the whole extraction.

The project has four files:

- `pystr.dfy` (module `PyStr`): the Python string operations the code relies on.
  - `split` with a separator, `join`, `strip()`, `rstrip('\n')`, `startswith`/`endswith`.
  - Slices with negative bounds, `isnumeric`, `int` and `str` on digit strings.
- `dates.dfy` (module `Dates`): `datetime.strptime(v, "%Y%m%d")` and `strftime("%Y%m%d")`.
  - `strptime` follows the regular expression CPython builds for that format. It takes the first match, fails when characters are left over, and then checks the calendar.
  - `strftime` pads every field with zeros.
- `datamodels.dfy` (module `DataModels`): every `@pydantic.validator` of the two models.
  - Each validator is a pure function returning `Pass(value)`, `Reject` (it raised `ValueError`) or `Crash(IndexError)` (an exception pydantic does not catch).
  - Two builders run all validators of a model, as pydantic v1 does. They return the record, the list of failing fields, or the escaping exception.
- `utils.dfy` (module `Utils`): the two extractors as methods with loops.
  - Line by line, they append to `data` and `errors` and stop at the first escaping exception.
  - The Nanopore loop also carries `parent` and `seq_date`.
  - What one line does is stated as a function (`IlluminaLine`, `NanoporeLine`). Each method is proved to return the records and errors of those per-line outcomes, or the first exception.
  - Lemmas then state what the outcomes guarantee:
    - lines are skipped, or split between records and errors;
    - input order is kept;
    - header context carries forward;
    - accepted lines decompose exactly into their fields;
    - the ways a run can abort.

The file contents are a parameter. Each method takes the sequence of lines the file iterator yields; each line may still end in `"\n"`, which the loop strips off.

Facts about the code that the model keeps as they are:

- Parts after the fourth `_` are ignored. A line ending in `gz` with fewer than four parts raises `IndexError`, which aborts the run.
- Pydantic v1 runs every validator of a model and lists every failing field; `Failures` and `BuildIllumina` model that.
- The line `2201-02 A123_B456_C7_sample.fastq.gz` is rejected, on five of its six fields; only the sequence `B456` passes:
  - the sample id and the sample-id suffix both read the last space token `A123` of the first part, which is not numeric;
  - `check_length` looks for digits in `"C7"[1:-1]`, which is empty;
  - `clean_read_type` gets `sample.fastq.gz`, which is not a non-digit followed by digits;
  - the file name, the last space token of the whole line, starts with `A`.

  `Utils.LetterTokenSplit` gives the four parts, and `DataModels.LetterTokenRejected` the rejected record.
- A line that does not end in `gz` is skipped silently (`Utils.IneligibleLineIgnored`). Every line ending in `gz` that does not raise `IndexError` reaches the file-name check (a line with fewer than four `_` parts, or with an empty sequence, length or read-type part, raises first; `Utils.IlluminaCrashes`); of those, only a line not ending in `.gz` (or whose last space token does not start with a digit) is rejected by it.

## Model

| member | source | states |
|---|---|---|
| PyStr.Split | code/utils.py:36 | `str.split(sep)` always gives at least one piece; no piece contains the separator; joining the pieces with it gives the string back |
| PyStr.SplitJoin | code/utils.py:36 | splitting undoes joining: pieces without the separator, joined by it, split back into themselves |
| PyStr.SplitHasSecond | code/utils.py:73 | a split has a second piece exactly when the separator occurs, so `parent.split("/")[1]` raises exactly when the header has no "/" |
| PyStr.SplitTail | code/utils.py:73 | the pieces after the first are the split of the text after the first separator |
| PyStr.LastTokenIsTail | src/datamodels.py:22 | `s.split(sep)[-1]` is the suffix after the last separator, and the whole string when there is none |
| PyStr.Strip | code/utils.py:36 | `strip()` gives a result no longer than its input that neither starts nor ends with whitespace |
| PyStr.StripRemovesSpaces | code/utils.py:36 | what `strip()` keeps is a slice of the input; everything before it and everything after it is whitespace |
| PyStr.TrimEnd | code/utils.py:33 | `rstrip('\n')` removes exactly the trailing newlines and keeps the rest as a prefix |
| PyStr.TrimEndAfterPiece | code/utils.py:70 | `rstrip('\n')` never reaches into a leading piece that holds no newline: it strips only the rest |
| PyStr.Bound | src/datamodels.py:49 | a slice bound in range is kept; a negative one counts from the end; one past the end becomes the length, and one before the start becomes 0 |
| PyStr.DigitsValue | src/datamodels.py:60 | `int(s)` of n digits is below 10^n |
| PyStr.DecimalValue | src/datamodels.py:90 | `int(str(n)) == n` |
| PyStr.PaddedDigits | src/datamodels.py:83 | zero-padding the value of a digit string to its own length gives the string back |
| Dates.Strptime | src/datamodels.py:82 | whatever `strptime(v, "%Y%m%d")` returns is a valid date of the proleptic Gregorian calendar in years 1 to 9999 |
| Dates.Strftime | src/datamodels.py:83 | `strftime("%Y%m%d")` gives eight digits |
| Dates.EightDigits | src/datamodels.py:82 | on eight digits, `strptime` succeeds exactly when they spell a valid date, and reads that date field by field |
| Dates.StrftimeSpells | src/datamodels.py:83 | the eight digits `strftime` gives spell the date back |
| Dates.SpelledRenders | src/datamodels.py:82-83 | eight digits that spell a valid date are given back unchanged by `strftime` |
| DataModels.CleanSampleId | src/datamodels.py:19-26 | `clean_sample_id` never raises; what it returns is numeric and holds no hyphen |
| DataModels.CleanSampleIdSuffix | src/datamodels.py:28-35 | `clean_sample_id_suffix` never raises and accepts exactly when `clean_sample_id` accepts |
| DataModels.SampleIdAccepts | src/datamodels.py:22-23 | the sample id is accepted exactly when the last space token is digit groups separated by single hyphens |
| DataModels.SampleIdRoundTrip | src/datamodels.py:26 | on acceptance, the suffix is empty exactly when the token has no hyphen; otherwise `id + "-" + suffix` is the token |
| DataModels.JoinedGroupsAreSampleToken | src/datamodels.py:23 | numeric groups joined by "-" form a sample-id token |
| DataModels.SampleTokenGroups | src/datamodels.py:23 | the hyphen groups of a sample-id token are all numeric |
| DataModels.CheckSequence | src/datamodels.py:38-44 | `check_sequence` raises `IndexError` exactly on "", accepts exactly a non-digit followed by one or more digits, and returns its input |
| DataModels.CheckLength | src/datamodels.py:46-52 | `check_length` raises `IndexError` exactly on ""; it accepts exactly strings of length 3 or more whose first character is not a digit and whose middle characters are digits; it returns its input |
| DataModels.CleanReadType | src/datamodels.py:54-60 | `clean_read_type` raises and accepts exactly where `check_sequence` does; its value `int(v[1:])` is below 10^(len-1) |
| DataModels.ReadTypeRoundTrip | src/datamodels.py:60 | for any non-digit mark m and number n, `clean_read_type(m + str(n))` gives n |
| DataModels.LengthLastCharFree | src/datamodels.py:49 | changing the last character of an accepted length leaves it accepted |
| DataModels.LengthVersusSequence | src/datamodels.py:41-49 | a `check_sequence` value of length 3 or more passes `check_length`; "L1" passes `check_sequence` but not `check_length` |
| DataModels.CheckFilename | src/datamodels.py:63-70 | `check_filename` never raises. On acceptance it returns the last space token: no space, a leading digit, a `.gz` end. On rejection the token lacks the `.gz` end or the leading digit |
| DataModels.FilenameIdempotent | src/datamodels.py:66-70 | `check_filename` of its own result gives the same result |
| DataModels.TransformDate | src/datamodels.py:79-83 | `transform_date` never raises anything but `ValueError` and returns eight digits |
| DataModels.DateOfEightDigits | src/datamodels.py:82-83 | on eight digits, `transform_date` accepts exactly the valid calendar dates and returns the string itself |
| DataModels.DateCanonical | src/datamodels.py:82-83 | `transform_date` of its own result gives the same result |
| DataModels.MonthThirteenRejected | src/datamodels.py:82 | "20231301" is rejected |
| DataModels.FebruaryThirtiethRejected | src/datamodels.py:82 | "20230230" is rejected |
| DataModels.LeapDayAccepted | src/datamodels.py:82-83 | "20240229" is accepted unchanged |
| DataModels.CommonYearLeapDayRejected | src/datamodels.py:82 | "20230229" is rejected |
| DataModels.NewYearAccepted | src/datamodels.py:82-83 | "20230101" is accepted unchanged |
| DataModels.TransformBarcode | src/datamodels.py:86-90 | `transform_barcode` accepts exactly the non-empty digit strings; their value is below 10^len |
| DataModels.BarcodeRoundTrip | src/datamodels.py:88-90 | `transform_barcode(str(n))` gives n |
| DataModels.CheckPath | src/datamodels.py:92-96 | `check_path` accepts every string and returns it unchanged |
| DataModels.Flagged | src/datamodels.py:79-96 | the failing fields are exactly the flagged ones, and there are none exactly when no flag is set |
| DataModels.Failures | src/datamodels.py:19-70 | a field is in the failure list exactly when its validator rejected; the list is empty exactly when none did |
| DataModels.BuildIllumina | src/datamodels.py:11-70 | `IlluminaDataModel(...)` raises `IndexError` exactly when the seq, length or read-type field is empty. It is built exactly when every validator passes, holding their values. On rejection it lists exactly the rejected fields |
| DataModels.BuildNanopore | src/datamodels.py:73-96 | `NanoporeDataModel(...)` never raises past pydantic. It is built exactly when the date is valid and the barcode numeric. On rejection it lists exactly the failing fields, never the path |
| DataModels.LetterTokenSampleId | src/datamodels.py:22-24 | the first part "2201-02 A123" of the example line fails both sample-id validators |
| DataModels.LetterTokenParts | src/datamodels.py:41-57 | of the example line's parts, "B456" passes `check_sequence`, "C7" fails `check_length`, and "sample.fastq.gz" fails `clean_read_type` |
| DataModels.LetterTokenFilename | src/datamodels.py:66-68 | the example line fails `check_filename` |
| DataModels.BuiltIlluminaFields | src/datamodels.py:38-60 | a built `IlluminaDataModel` keeps `seq` and `sample_len` unchanged, `seq` is a non-digit followed by digits, and `read_type` is `int(v[1:])` of a read type of that same form |
| DataModels.BuildWithoutSequence | src/datamodels.py:11-70 | when every field but the sequence is rejected, `IlluminaDataModel(...)` fails on exactly the other five fields, in declaration order |
| DataModels.LetterTokenRejected | src/datamodels.py:11-70 | the parts of the line "2201-02 A123_B456_C7_sample.fastq.gz" give a record rejected on the sample id, suffix, length, read type and file name |
| Utils.FirstCrashIsFirst | code/utils.py:32-48 | a run raises exactly when some line raises, and then with the exception of the first such line |
| Utils.RecordsComeFromLines | code/utils.py:46 | a record is in `data` exactly when some line was accepted with it |
| Utils.ErrorsComeFromLines | code/utils.py:48 | an entry is in `errors` exactly when some line was rejected with it |
| Utils.EntriesMatchHandled | code/utils.py:46-48 | every handled line adds exactly one entry, to `data` or to `errors` |
| Utils.IlluminaLine | code/utils.py:33-48 | one pass of the loop body: a line is skipped exactly when it does not end in "gz"; the only exception is `IndexError`; a rejected entry holds the line and a non-empty list of failing fields. Its other properties are in `IlluminaCrashes`, `IlluminaSampleDecomposition`, `IlluminaFieldDecomposition`, `IlluminaFilenameField` and `IlluminaRejection` |
| Utils.ExtractIlluminaData | code/utils.py:17-50 | the run raises exactly when a line's outcome raises, with the first such exception; otherwise it returns the records and entries of the line outcomes, in line order |
| Utils.IneligibleLineIgnored | code/utils.py:33-35 | inserting a line that does not end in "gz" anywhere changes neither the records, nor the errors, nor whether and how the run aborts |
| Utils.IlluminaInOrder | code/utils.py:32-48 | the records and errors of a concatenation of line lists are those of each list, in order |
| Utils.IlluminaEntryCount | code/utils.py:35-48 | without an exception, `len(data) + len(errors)` is the number of lines ending in "gz" |
| Utils.IlluminaCrashes | code/utils.py:36-47 | a line raises exactly when it ends in "gz" and has fewer than four `_` parts or an empty second, third or fourth part; the exception is `IndexError` |
| Utils.IlluminaSampleDecomposition | code/utils.py:36-40 | the sample id and suffix of an accepted line come from the same first `_` part: its last space token is digit groups, and id and suffix put back together give that token |
| Utils.IlluminaFieldDecomposition | code/utils.py:36-43 | an accepted line has at least four parts; its seq and length are parts two and three unchanged, its read type is the number in part four, and any later parts are ignored |
| Utils.IlluminaFilenameField | code/utils.py:35-44 | an accepted line ends in "gz"; its file name is the last space token of the whole line (newline removed), starting with a digit and ending in ".gz" |
| Utils.IlluminaRejection | code/utils.py:47-48 | a rejected line's entry holds the line and exactly the failing fields. The sample id and suffix fail exactly when the token is not digit groups. The seq and read type fail exactly when they are not a non-digit followed by digits. The length fails exactly when it is not a non-digit, digits and one more character. The file name fails exactly when the last space token lacks ".gz" or a leading digit |
| Utils.LetterTokenSplit | code/utils.py:36 | the example line "2201-02 A123_B456_C7_sample.fastq.gz" splits into "2201-02 A123", "B456", "C7" and "sample.fastq.gz" |
| Utils.HeaderDate | code/utils.py:73 | `seq_date` is defined exactly when the header has a "/", and then holds neither "/" nor "_" |
| Utils.HeaderDateIsSecondSegment | code/utils.py:73 | `seq_date` is the part before the first "_" of the text between the first and second "/" |
| Utils.HeaderDateOf | code/utils.py:73 | a header `a/b_...`, where a has no "/" and b has no "/" or "_", has date b |
| Utils.RawHeaderDateOf | code/utils.py:70-73 | such a header as the file iterator yields it, with any trailing newlines, still has date b once `rstrip("\n")` has run |
| Utils.DataLine | code/utils.py:75-84 | a data line is always accepted or rejected; an accepted record's path is the header, "/" and the last space token; a rejected entry holds the line, the raw date and a non-empty list of failing fields |
| Utils.NanoporeLine | code/utils.py:70-84 | one pass of the loop body, given the lines before it. A header yields nothing or raises `IndexError`; a data line always yields something or raises. It raises `UnboundLocalError` exactly for a data line before any header. Its other properties are in `NanoporeCrashes`, `NanoporeAcceptedDate`, `NanoporeAcceptedFields` and `NanoporeRejected` |
| Utils.LastHeader | code/utils.py:71-72 | the most recent header before line i is a header line, and no later line before i is one; when there is none, no line before i is a header |
| Utils.NanoporeStep | code/utils.py:70-84 | one pass of the loop body gives the outcome `NanoporeLine` states. Unless it raises, `parent` and `seq_date` afterwards are the most recent header and its date |
| Utils.ExtractNanoporeData | code/utils.py:54-85 | the run raises exactly when a line's outcome raises, with the first such exception; otherwise it returns the records and entries of the line outcomes, in line order |
| Utils.HeaderStartsContext | code/utils.py:71-73 | a header line yields nothing when it has a "/", and the lines after it see its date |
| Utils.ContextCarriesForward | code/utils.py:71-84 | across lines that are not headers, the most recent header and the date in effect do not change |
| Utils.NanoporeCrashes | code/utils.py:71-80 | a line raises exactly when: it is a header without "/"; or it is a data line before any header (`UnboundLocalError`); or it is a data line under a header without "/" (`IndexError`). The last case is never reached in a run, because that header raised first |
| Utils.DataBeforeHeaderAborts | code/utils.py:74-78 | a file whose first line is not a header aborts with `UnboundLocalError` and never produces an error entry |
| Utils.SlashlessHeaderAborts | code/utils.py:73 | a header line without "/" aborts the run with `IndexError` unless an earlier line already has |
| Utils.BarcodeOf | code/utils.py:75-79 | the barcode candidate `components[0][-2:]` is the last two characters of the first "." piece of the last space token, or all of it when shorter |
| Utils.NanoporeAcceptedDate | code/utils.py:77-78 | an accepted line is a data line under a header with a date; its record's date is `transform_date` of that date, in canonical form |
| Utils.NanoporeAcceptedFields | code/utils.py:77-80 | an accepted line's barcode is the number its candidate spells, below 100; its path is the header line, "/", and the line's last space token |
| Utils.NanoporeRejected | code/utils.py:83-84 | a rejected line's entry holds the line and the date in effect. It lists exactly the failing fields: the date when `transform_date` rejects it, the barcode when not numeric, never the path |
| Utils.NanoporeEntryCount | code/utils.py:71-84 | without an exception, `len(data) + len(errors)` is the number of non-header lines |
| Utils.NewYearHeader | code/utils.py:71-73 | the header "nanopore/20230101_..." sets `seq_date` to "20230101", whatever follows the `_`, a trailing newline included |
| Utils.TwoLinesUnderOneHeader | code/utils.py:71-84 | with header "nanopore/20230101_..." (ending in a newline or not) followed by two data lines, the date in effect for both lines is "20230101" |
| Utils.TwoLinesShareDate | code/utils.py:77-84 | in that file, an accepted data line's record and a rejected data line's entry both carry "20230101" |

## Left out

- `main.py` is not part of this model. It is database, HTTP and command-line plumbing for loading and joining tables.
- `fasta_to_df` and `create_connection` in `code/utils.py` are left out: they wrap Biopython, pandas and sqlite3.
- Opening and reading the file is left out. The lines are a parameter, each as the file iterator yields it.
- The extractors take the data model as a parameter. The model fixes it to `IlluminaDataModel` for `extract_ill_data` and to `NanoporeDataModel` for `extract_nanopore_data`, the only pairings the tool makes.
- The error text `str(e)` is replaced by the list of failing fields. Pydantic's message names exactly those fields.
- `IsNumeric`, `IsDigit` and `%Y`'s `\d` use ASCII digits only. Python's `isnumeric` and `\d` also accept other Unicode digits and numerals.
- Dates.Strftime: zero-pads the year to four digits. CPython on glibc prints years below 1000 without padding, so for those years the model's result differs from the real code's.
- DataModels.TransformDate: for a year below 1000 it returns the padded string; the real code returns a shorter one (see `Dates.Strftime`).
- DataModels.DateOfEightDigits: its "returns the string itself" holds in the real code only for years 1000 and later, for the same reason.
- DataModels.DateCanonical: holds in the real code only for years 1000 and later, for the same reason.
- `Path(v)` in `check_path` is modelled as having no effect: on a string it never raises.
- The Nanopore loop body is factored into the step method `NanoporeStep`. `parent` and `seq_date` are written as `Option<string>` and a string, `None` standing for an unbound name.
