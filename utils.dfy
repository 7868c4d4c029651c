/** The two manifest extractors of `code/utils.py`.  The file is given as the
    sequence of lines its iterator yields; each extractor walks them in order,
    appending to a list of records and a list of error entries, and stops with
    the exception when one escapes the `except pydantic.ValidationError`.

    What each line does is stated as a function (`IlluminaLine`,
    `NanoporeLine`); the methods are proved to return the records and error
    entries of those outcomes, or the first exception, and the lemmas below
    state what the outcomes guarantee. */
module Utils {
  import opened PyStr
  import opened DataModels

  /** `{"line": line, "error": str(e)}`, with the failing fields for the message. */
  datatype IlluminaError = IlluminaError(line: string, failed: seq<Field>)

  /** `{"line": line, "date": seq_date, "error": str(e)}`. */
  datatype NanoporeError = NanoporeError(line: string, date: string, failed: seq<Field>)

  /** The `(data, errors)` pair an extractor returns, or the exception it raises. */
  datatype Extraction<R, E> = Done(data: seq<R>, errors: seq<E>) | Raised(fault: Fault)

  /** What one line contributes. */
  datatype LineOutcome<R, E> = Skipped | Accepted(rec: R) | Rejected(entry: E) | Crashed(fault: Fault)

  // ================================================================ collecting outcomes

  /** The records of the accepted lines, in line order. */
  function Records<R, E>(outs: seq<LineOutcome<R, E>>): seq<R>
  {
    if |outs| == 0 then []
    else
      var last := outs[|outs| - 1];
      Records(outs[..|outs| - 1]) + (if last.Accepted? then [last.rec] else [])
  }

  /** The error entries of the rejected lines, in line order. */
  function Errors<R, E>(outs: seq<LineOutcome<R, E>>): seq<E>
  {
    if |outs| == 0 then []
    else
      var last := outs[|outs| - 1];
      Errors(outs[..|outs| - 1]) + (if last.Rejected? then [last.entry] else [])
  }

  /** The number of lines that are accepted or rejected. */
  function Handled<R, E>(outs: seq<LineOutcome<R, E>>): nat
  {
    if |outs| == 0 then 0
    else Handled(outs[..|outs| - 1]) + (if outs[|outs| - 1].Accepted? || outs[|outs| - 1].Rejected? then 1 else 0)
  }

  /** The exception of the first line that raises one. */
  function FirstCrash<R, E>(outs: seq<LineOutcome<R, E>>): Option<Fault>
  {
    if |outs| == 0 then None
    else if outs[0].Crashed? then Some(outs[0].fault)
    else FirstCrash(outs[1..])
  }

  /** There is an exception exactly when some line raises, and then it is the
      exception of the first such line. */
  lemma {:induction false} FirstCrashIsFirst<R, E>(outs: seq<LineOutcome<R, E>>)
    ensures FirstCrash(outs).None? <==> forall i :: 0 <= i < |outs| ==> !outs[i].Crashed?
    ensures FirstCrash(outs).Some? ==>
      exists i :: 0 <= i < |outs| && outs[i] == Crashed(FirstCrash(outs).value)
        && (forall j :: 0 <= j < i ==> !outs[j].Crashed?)
    decreases |outs|
  {
    if |outs| > 0 && !outs[0].Crashed? {
      var rest := outs[1..];
      FirstCrashIsFirst(rest);
      assert forall i :: 1 <= i < |outs| ==> rest[i - 1] == outs[i];
      if FirstCrash(rest).Some? {
        var k :| 0 <= k < |rest| && rest[k] == Crashed(FirstCrash(rest).value)
          && (forall j :: 0 <= j < k ==> !rest[j].Crashed?);
        assert outs[k + 1] == rest[k];
      }
    }
  }

  /** What one more outcome adds to the collected records, errors and exception. */
  lemma CollectNext<R, E>(outs: seq<LineOutcome<R, E>>, out: LineOutcome<R, E>)
    ensures Records(outs + [out]) == Records(outs) + (if out.Accepted? then [out.rec] else [])
    ensures Errors(outs + [out]) == Errors(outs) + (if out.Rejected? then [out.entry] else [])
    ensures Handled(outs + [out]) == Handled(outs) + (if out.Accepted? || out.Rejected? then 1 else 0)
    ensures FirstCrash(outs + [out]) ==
      if FirstCrash(outs).Some? then FirstCrash(outs) else if out.Crashed? then Some(out.fault) else None
  {
    assert (outs + [out])[..|outs|] == outs;
    FirstCrashAppend(outs, [out]);
  }

  lemma {:induction false} RecordsAppend<R, E>(a: seq<LineOutcome<R, E>>, b: seq<LineOutcome<R, E>>)
    ensures Records(a + b) == Records(a) + Records(b)
    ensures Errors(a + b) == Errors(a) + Errors(b)
    ensures Handled(a + b) == Handled(a) + Handled(b)
    decreases |b|
  {
    if |b| > 0 {
      var b' := b[..|b| - 1];
      assert (a + b)[..|a + b| - 1] == a + b';
      RecordsAppend(a, b');
    } else {
      assert a + b == a;
    }
  }

  /** Each handled line adds exactly one entry, to the records or to the errors. */
  lemma {:induction false} EntriesMatchHandled<R, E>(outs: seq<LineOutcome<R, E>>)
    ensures |Records(outs)| + |Errors(outs)| == Handled(outs)
    decreases |outs|
  {
    if |outs| > 0 {
      EntriesMatchHandled(outs[..|outs| - 1]);
    }
  }

  /** The lines `keep` holds for, in order. */
  function Kept(keep: string -> bool, lines: seq<string>): seq<string>
  {
    if |lines| == 0 then []
    else Kept(keep, lines[..|lines| - 1]) + (if keep(lines[|lines| - 1]) then [lines[|lines| - 1]] else [])
  }

  /** When no line raises and exactly the lines `keep` holds for are handled,
      the handled lines are the kept ones. */
  lemma {:induction false} HandledAreKept<R, E>(outs: seq<LineOutcome<R, E>>, lines: seq<string>, keep: string -> bool)
    requires |outs| == |lines|
    requires forall i :: 0 <= i < |outs| ==> !outs[i].Crashed? && (outs[i].Skipped? <==> !keep(lines[i]))
    ensures Handled(outs) == |Kept(keep, lines)|
    decreases |outs|
  {
    if |outs| > 0 {
      var n := |outs| - 1;
      assert forall i :: 0 <= i < n ==> outs[..n][i] == outs[i];
      assert forall i :: 0 <= i < n ==> lines[..n][i] == lines[i];
      HandledAreKept(outs[..n], lines[..n], keep);
    }
  }

  /** The element after a known prefix. */
  lemma AfterPrefix<T>(s: seq<T>, p: seq<T>, x: T)
    requires |p| < |s| && s[..|p| + 1] == p + [x]
    ensures s[|p|] == x
  {
    assert s[..|p| + 1][|p|] == s[|p|];
  }

  /** A record is in the output exactly when some line was accepted with it. */
  lemma {:induction false} RecordsComeFromLines<R, E>(outs: seq<LineOutcome<R, E>>, x: R)
    ensures x in Records(outs) <==> exists i :: 0 <= i < |outs| && outs[i] == Accepted(x)
    decreases |outs|
  {
    if |outs| > 0 {
      var front := outs[..|outs| - 1];
      RecordsComeFromLines(front, x);
      assert forall i :: 0 <= i < |front| ==> front[i] == outs[i];
    }
  }

  /** An error entry is in the output exactly when some line was rejected with it. */
  lemma {:induction false} ErrorsComeFromLines<R, E>(outs: seq<LineOutcome<R, E>>, x: E)
    ensures x in Errors(outs) <==> exists i :: 0 <= i < |outs| && outs[i] == Rejected(x)
    decreases |outs|
  {
    if |outs| > 0 {
      var front := outs[..|outs| - 1];
      ErrorsComeFromLines(front, x);
      assert forall i :: 0 <= i < |front| ==> front[i] == outs[i];
    }
  }

  lemma {:induction false} FirstCrashAppend<R, E>(a: seq<LineOutcome<R, E>>, b: seq<LineOutcome<R, E>>)
    ensures FirstCrash(a + b) == if FirstCrash(a).Some? then FirstCrash(a) else FirstCrash(b)
    decreases |a|
  {
    if |a| > 0 {
      assert (a + b)[1..] == a[1..] + b;
      FirstCrashAppend(a[1..], b);
    } else {
      assert a + b == b;
    }
  }

  /** Once a prefix of the outcomes has raised, the whole run raises the same exception. */
  lemma FirstCrashOfPrefix<R, E>(outs: seq<LineOutcome<R, E>>, k: nat)
    requires k <= |outs| && FirstCrash(outs[..k]).Some?
    ensures FirstCrash(outs) == FirstCrash(outs[..k])
  {
    assert outs == outs[..k] + outs[k..];
    FirstCrashAppend(outs[..k], outs[k..]);
  }

  /** The outcomes of a per-line step over every line, in line order. */
  function MapLines<R, E>(step: string -> LineOutcome<R, E>, lines: seq<string>): (outs: seq<LineOutcome<R, E>>)
    ensures |outs| == |lines|
  {
    if |lines| == 0 then []
    else MapLines(step, lines[..|lines| - 1]) + [step(lines[|lines| - 1])]
  }

  lemma {:induction false} MapLinesAt<R, E>(step: string -> LineOutcome<R, E>, lines: seq<string>, i: nat)
    requires i < |lines|
    ensures MapLines(step, lines)[i] == step(lines[i])
    decreases |lines|
  {
    if i < |lines| - 1 {
      var front := lines[..|lines| - 1];
      MapLinesAt(step, front, i);
    }
  }

  lemma {:induction false} MapLinesAppend<R, E>(step: string -> LineOutcome<R, E>, a: seq<string>, b: seq<string>)
    ensures MapLines(step, a + b) == MapLines(step, a) + MapLines(step, b)
    decreases |b|
  {
    if |b| == 0 {
      assert a + b == a;
    } else {
      var b' := b[..|b| - 1];
      assert (a + b)[..|a + b| - 1] == a + b';
      MapLinesAppend(step, a, b');
    }
  }

  lemma MapLinesNext<R, E>(step: string -> LineOutcome<R, E>, lines: seq<string>, i: nat)
    requires i < |lines|
    ensures MapLines(step, lines[..i + 1]) == MapLines(step, lines[..i]) + [step(lines[i])]
  {
    assert lines[..i + 1][..i] == lines[..i];
  }

  lemma MapLinesPrefix<R, E>(step: string -> LineOutcome<R, E>, lines: seq<string>, k: nat)
    requires k <= |lines|
    ensures MapLines(step, lines[..k]) == MapLines(step, lines)[..k]
  {
    var a, b := lines[..k], lines[k..];
    assert lines == a + b;
    MapLinesAppend(step, a, b);
  }

  /** The exception a prefix of the lines raises is the exception of the whole run. */
  lemma MapLinesCrashStops<R, E>(step: string -> LineOutcome<R, E>, lines: seq<string>, k: nat)
    requires k <= |lines| && FirstCrash(MapLines(step, lines[..k])).Some?
    ensures FirstCrash(MapLines(step, lines)) == FirstCrash(MapLines(step, lines[..k]))
  {
    MapLinesPrefix(step, lines, k);
    FirstCrashOfPrefix(MapLines(step, lines), k);
  }

  /** A skipped outcome changes nothing: neither records, nor errors, nor
      whether and how the run aborts. */
  lemma SkippedIgnored<R, E>(x: seq<LineOutcome<R, E>>, y: seq<LineOutcome<R, E>>)
    ensures Records(x + [Skipped] + y) == Records(x + y) && Errors(x + [Skipped] + y) == Errors(x + y)
    ensures FirstCrash(x + [Skipped] + y) == FirstCrash(x + y)
  {
    var s: seq<LineOutcome<R, E>> := [Skipped];
    RecordsAppend(x + s, y);
    RecordsAppend(x, s);
    RecordsAppend(x, y);
    assert s[..0] == [];
    FirstCrashAppend(x + s, y);
    FirstCrashAppend(x, s);
    FirstCrashAppend(x, y);
  }

  /** A line whose step is `Skipped` can be dropped from the file. */
  lemma SkippedLineIgnored<R, E>(step: string -> LineOutcome<R, E>, a: seq<string>, raw: string, b: seq<string>)
    requires step(raw) == Skipped
    ensures MapLines(step, a + [raw] + b) == MapLines(step, a) + [Skipped] + MapLines(step, b)
    ensures MapLines(step, a + b) == MapLines(step, a) + MapLines(step, b)
  {
    MapLinesAppend(step, a + [raw], b);
    MapLinesAppend(step, a, [raw]);
    MapLinesAppend(step, a, b);
    assert [raw][..0] == [];
  }

  /** `line.rstrip('\n')`. */
  function CleanLine(raw: string): string { TrimEnd(raw, '\n') }

  // ================================================================ extract_ill_data

  predicate IlluminaEligible(raw: string) { EndsWith(CleanLine(raw), "gz") }

  /** One pass of the loop body of `extract_ill_data`: a line not ending in "gz"
      is skipped, and the only exception is `IndexError`. */
  function IlluminaLine(raw: string): (out: LineOutcome<IlluminaRecord, IlluminaError>)
    ensures out.Skipped? <==> !IlluminaEligible(raw)
    ensures out.Crashed? ==> out.fault == IndexError
    ensures out.Rejected? ==> out.entry.line == CleanLine(raw) && out.entry.failed != []
  {
    var line := CleanLine(raw);
    if !EndsWith(line, "gz") then Skipped
    else
      var components := Split(Strip(line), '_');
      if |components| < 4 then Crashed(IndexError)
      else match BuildIllumina(components[0], components[0], components[1], components[2], components[3], line)
        case Built(rec) => Accepted(rec)
        case Invalid(failed) => Rejected(IlluminaError(line, failed))
        case Aborted(fault) => Crashed(fault)
  }

  function IlluminaOutcomes(lines: seq<string>): seq<LineOutcome<IlluminaRecord, IlluminaError>>
  {
    MapLines(IlluminaLine, lines)
  }

  /** `extract_ill_data(fp, IlluminaDataModel)` on the lines of `fp`: the
      first exception of the outcomes if there is one, and otherwise their
      records and error entries. */
  method ExtractIlluminaData(lines: seq<string>) returns (r: Extraction<IlluminaRecord, IlluminaError>)
    ensures r.Raised? <==> FirstCrash(IlluminaOutcomes(lines)).Some?
    ensures r.Raised? ==> FirstCrash(IlluminaOutcomes(lines)) == Some(r.fault)
    ensures r.Done? ==> r.data == Records(IlluminaOutcomes(lines)) && r.errors == Errors(IlluminaOutcomes(lines))
  {
    var data: seq<IlluminaRecord> := [];
    var errors: seq<IlluminaError> := [];
    ghost var outs: seq<LineOutcome<IlluminaRecord, IlluminaError>> := [];
    for i := 0 to |lines|
      invariant outs == IlluminaOutcomes(lines[..i])
      invariant FirstCrash(outs).None?
      invariant data == Records(outs) && errors == Errors(outs)
    {
      var outcome := IlluminaLine(lines[i]);
      MapLinesNext(IlluminaLine, lines, i);
      CollectNext(outs, outcome);
      outs := outs + [outcome];
      match outcome {
        case Skipped =>
        case Accepted(rec) => data := data + [rec];
        case Rejected(entry) => errors := errors + [entry];
        case Crashed(fault) =>
          MapLinesCrashStops(IlluminaLine, lines, i + 1);
          return Raised(fault);
      }
    }
    assert lines[..|lines|] == lines;
    return Done(data, errors);
  }

  /** The eligible lines, in order. */
  function Eligible(lines: seq<string>): seq<string>
  {
    Kept(IlluminaEligible, lines)
  }

  /** A line that does not end in "gz" changes nothing: neither records, nor
      errors, nor whether and how the run aborts. */
  lemma IneligibleLineIgnored(a: seq<string>, raw: string, b: seq<string>)
    requires !IlluminaEligible(raw)
    ensures var with, without := IlluminaOutcomes(a + [raw] + b), IlluminaOutcomes(a + b);
      && Records(with) == Records(without) && Errors(with) == Errors(without)
      && FirstCrash(with) == FirstCrash(without)
  {
    SkippedLineIgnored(IlluminaLine, a, raw, b);
    SkippedIgnored(IlluminaOutcomes(a), IlluminaOutcomes(b));
  }

  /** Extraction is streaming: the records and errors of a concatenation are
      those of the parts, in order. */
  lemma IlluminaInOrder(a: seq<string>, b: seq<string>)
    ensures Records(IlluminaOutcomes(a + b)) == Records(IlluminaOutcomes(a)) + Records(IlluminaOutcomes(b))
    ensures Errors(IlluminaOutcomes(a + b)) == Errors(IlluminaOutcomes(a)) + Errors(IlluminaOutcomes(b))
  {
    MapLinesAppend(IlluminaLine, a, b);
    RecordsAppend(IlluminaOutcomes(a), IlluminaOutcomes(b));
  }

  /** Without an exception, every eligible line adds exactly one record or one
      error entry and nothing else adds any. */
  lemma IlluminaEntryCount(lines: seq<string>)
    requires FirstCrash(IlluminaOutcomes(lines)).None?
    ensures |Records(IlluminaOutcomes(lines))| + |Errors(IlluminaOutcomes(lines))| == |Eligible(lines)|
  {
    var outs := IlluminaOutcomes(lines);
    FirstCrashIsFirst(outs);
    EntriesMatchHandled(outs);
    forall i | 0 <= i < |outs|
      ensures !outs[i].Crashed? && (outs[i].Skipped? <==> !IlluminaEligible(lines[i]))
    {
      MapLinesAt(IlluminaLine, lines, i);
    }
    HandledAreKept(outs, lines, IlluminaEligible);
  }

  /** The only exceptions: an eligible line with fewer than four `_` parts, or an
      empty second, third or fourth part reaching `v[0]` in a validator. */
  lemma IlluminaCrashes(raw: string)
    ensures var components := Split(Strip(CleanLine(raw)), '_');
      IlluminaLine(raw).Crashed? <==>
        IlluminaEligible(raw)
        && (|components| < 4 || components[1] == "" || components[2] == "" || components[3] == "")
    ensures IlluminaLine(raw).Crashed? ==> IlluminaLine(raw).fault == IndexError
  {
    var line := CleanLine(raw);
    var c := Split(Strip(line), '_');
    if EndsWith(line, "gz") && |c| >= 4 {
      var b := BuildIllumina(c[0], c[0], c[1], c[2], c[3], line);
      assert IlluminaLine(raw).Crashed? <==> b.Aborted?;
    }
  }

  /** An accepted line's sample id and suffix come from the last space-separated
      token of its first `_` part: the digit groups of that token, split at its
      first `-`. */
  lemma IlluminaSampleDecomposition(raw: string)
    requires IlluminaLine(raw).Accepted?
    ensures var rec := IlluminaLine(raw).rec;
      var components := Split(Strip(CleanLine(raw)), '_');
      var token := LastToken(components[0], ' ');
      && |components| >= 4 && SampleToken(token)
      && (if rec.sampleIdSuffix == "" then rec.sampleId else rec.sampleId + "-" + rec.sampleIdSuffix) == token
      && (rec.sampleIdSuffix == "" <==> '-' !in token)
  {
    var components := Split(Strip(CleanLine(raw)), '_');
    SampleIdAccepts(components[0]);
    SampleIdRoundTrip(components[0]);
  }

  /** The next three fields of an accepted line are the second, third and fourth
      `_` parts, as they are (the read type as its number); parts after the
      fourth are ignored. */
  lemma IlluminaFieldDecomposition(raw: string)
    requires IlluminaLine(raw).Accepted?
    ensures var rec := IlluminaLine(raw).rec;
      var components := Split(Strip(CleanLine(raw)), '_');
      && |components| >= 4
      && rec.sequence == components[1] && PrefixedDigits(rec.sequence)
      && rec.sampleLen == components[2]
      && PrefixedDigits(components[3]) && rec.readType == DigitsValue(components[3][1..])
  {
    var line := CleanLine(raw);
    var components := Split(Strip(line), '_');
    var b := BuildIllumina(components[0], components[0], components[1], components[2], components[3], line);
    assert b.Built? && IlluminaLine(raw).rec == b.rec;
    BuiltIlluminaFields(components[0], components[0], components[1], components[2], components[3], line);
  }

  /** The file name of an accepted line comes from the whole line: its last space
      token, which starts with a digit and ends in ".gz". */
  lemma IlluminaFilenameField(raw: string)
    requires IlluminaLine(raw).Accepted?
    ensures var line, rec := CleanLine(raw), IlluminaLine(raw).rec;
      && EndsWith(line, "gz")
      && rec.filename == LastToken(line, ' ') && IsDigit(rec.filename[0]) && EndsWith(rec.filename, ".gz")
  {
  }

  /** A rejected line's entry holds the line and exactly the fields that failed. */
  lemma IlluminaRejection(raw: string)
    requires IlluminaLine(raw).Rejected?
    ensures var line, entry := CleanLine(raw), IlluminaLine(raw).entry;
      var c := Split(Strip(line), '_');
      && entry.line == line && entry.failed != [] && |c| >= 4
      && (SampleId in entry.failed <==> !SampleToken(LastToken(c[0], ' ')))
      && (SampleIdSuffix in entry.failed <==> !SampleToken(LastToken(c[0], ' ')))
      && (Seq in entry.failed <==> !PrefixedDigits(c[1]))
      && (SampleLen in entry.failed <==>
            !(|c[2]| >= 3 && !IsDigit(c[2][0]) && forall k :: 1 <= k < |c[2]| - 1 ==> IsDigit(c[2][k])))
      && (ReadType in entry.failed <==> !PrefixedDigits(c[3]))
      && (Filename in entry.failed <==>
            !EndsWith(LastToken(line, ' '), ".gz") || !IsDigit(LastToken(line, ' ')[0]))
  {
    var line := CleanLine(raw);
    var c := Split(Strip(line), '_');
    var b := BuildIllumina(c[0], c[0], c[1], c[2], c[3], line);
    assert b.Invalid? && IlluminaLine(raw).entry.failed == b.failed;
    SampleIdAccepts(c[0]);
  }

  /** The line "2201-02 A123_B456_C7_sample.fastq.gz" has four `_` parts; the
    fields they give are checked in `DataModels.LetterTokenSampleId`,
    `DataModels.LetterTokenParts` and `DataModels.LetterTokenFilename`. */
  lemma LetterTokenSplit()
    ensures Split(("2201-02" + " " + "A123") + "_" + ("B456" + "_" + ("C7" + "_" + "sample.fastq.gz")), '_')
      == ["2201-02 A123", "B456", "C7", "sample.fastq.gz"]
  {
    assert "2201-02" + " " + "A123" == "2201-02 A123";
    SplitFour("2201-02" + " " + "A123", "B456", "C7", "sample.fastq.gz", '_');
  }

  // ================================================================ extract_nanopore_data

  predicate IsHeader(raw: string) { StartsWith(CleanLine(raw), "nanopore") }

  predicate IsDataLine(raw: string) { !IsHeader(raw) }

  /** `parent.split("/")[1].split("_")[0]`; `None` where `[1]` raises `IndexError`. */
  function HeaderDate(parent: string): (d: Option<string>)
    ensures d.Some? <==> '/' in parent
    ensures d.Some? ==> '_' !in d.value && '/' !in d.value
  {
    SplitHasSecond(parent, '/');
    var segments := Split(parent, '/');
    if |segments| < 2 then None
    else
      FirstTokenIsHead(segments[1], '_');
      Some(FirstToken(segments[1], '_'))
  }

  /** The most recent header line before line `i`. */
  function LastHeader(lines: seq<string>, i: nat): (h: Option<nat>)
    requires i <= |lines|
    ensures h.Some? ==> h.value < i && IsHeader(lines[h.value]) && forall j :: h.value < j < i ==> !IsHeader(lines[j])
    ensures h.None? ==> forall j :: 0 <= j < i ==> !IsHeader(lines[j])
  {
    if i == 0 then None
    else if IsHeader(lines[i - 1]) then Some(i - 1)
    else LastHeader(lines, i - 1)
  }

  /** A data line under header `parent`, whose date part is `seqDate`. */
  function DataLine(parent: string, seqDate: string, line: string): (out: LineOutcome<NanoporeRecord, NanoporeError>)
    ensures out.Accepted? || out.Rejected?
    ensures out.Accepted? ==> out.rec.pathToSeqFile == parent + "/" + LastToken(line, ' ')
    ensures out.Rejected? ==> out.entry.line == line && out.entry.date == seqDate && out.entry.failed != []
  {
    var token := LastToken(line, ' ');
    var components := Split(token, '.');
    match BuildNanopore(seqDate, Slice(components[0], -2, |components[0]|), parent + "/" + token)
    case Built(rec) => Accepted(rec)
    case Invalid(failed) => Rejected(NanoporeError(line, seqDate, failed))
    case Aborted(fault) => Crashed(fault)
  }

  /** One pass of the loop body of `extract_nanopore_data`, for line `i`: a header
      line replaces `parent` and `seq_date`; a data line reads them, and before
      any header they are unbound.  (A data line under a header without "/" is
      never reached: that header raised first.) */
  function NanoporeLine(lines: seq<string>, i: nat): (out: LineOutcome<NanoporeRecord, NanoporeError>)
    requires i < |lines|
    ensures IsHeader(lines[i]) ==> out.Skipped? || out == Crashed(IndexError)
    ensures !IsHeader(lines[i]) ==> !out.Skipped?
    ensures out == Crashed(UnboundLocalError) <==> !IsHeader(lines[i]) && LastHeader(lines, i).None?
  {
    var line := CleanLine(lines[i]);
    if IsHeader(lines[i]) then
      if HeaderDate(line).None? then Crashed(IndexError) else Skipped
    else match LastHeader(lines, i)
      case None => Crashed(UnboundLocalError)
      case Some(h) =>
        var parent := CleanLine(lines[h]);
        match HeaderDate(parent)
        case None => Crashed(IndexError)
        case Some(date) => DataLine(parent, date, line)
  }

  /** The outcomes of the lines, in line order. */
  function NanoporeOutcomes(lines: seq<string>): (outs: seq<LineOutcome<NanoporeRecord, NanoporeError>>)
    ensures |outs| == |lines|
  {
    if |lines| == 0 then []
    else NanoporeOutcomes(lines[..|lines| - 1]) + [NanoporeLine(lines, |lines| - 1)]
  }

  /** Only the lines up to the current one matter to its outcome. */
  lemma {:induction false} LastHeaderPrefix(lines: seq<string>, k: nat, i: nat)
    requires i <= k <= |lines|
    ensures LastHeader(lines[..k], i) == LastHeader(lines, i)
    decreases i
  {
    if i > 0 {
      assert lines[..k][i - 1] == lines[i - 1];
      LastHeaderPrefix(lines, k, i - 1);
    }
  }

  lemma NanoporeLinePrefix(lines: seq<string>, k: nat, i: nat)
    requires i < k <= |lines|
    ensures NanoporeLine(lines[..k], i) == NanoporeLine(lines, i)
  {
    LastHeaderPrefix(lines, k, i);
    match LastHeader(lines, i)
    case None =>
    case Some(h) => assert lines[..k][h] == lines[h];
  }

  lemma NanoporeNext(lines: seq<string>, i: nat)
    requires i < |lines|
    ensures NanoporeOutcomes(lines[..i + 1]) == NanoporeOutcomes(lines[..i]) + [NanoporeLine(lines, i)]
  {
    assert lines[..i + 1][..i] == lines[..i];
    NanoporeLinePrefix(lines, i + 1, i);
  }

  lemma {:induction false} NanoporeOutcomesPrefix(lines: seq<string>, k: nat)
    requires k <= |lines|
    ensures NanoporeOutcomes(lines[..k]) == NanoporeOutcomes(lines)[..k]
    decreases |lines| - k
  {
    if k == |lines| {
      assert lines[..k] == lines;
    } else {
      NanoporeOutcomesPrefix(lines, k + 1);
      NanoporeNext(lines, k);
      assert NanoporeOutcomes(lines)[..k + 1][..k] == NanoporeOutcomes(lines)[..k];
    }
  }

  lemma NanoporeAt(lines: seq<string>, i: nat)
    requires i < |lines|
    ensures NanoporeOutcomes(lines)[i] == NanoporeLine(lines, i)
  {
    NanoporeOutcomesPrefix(lines, i + 1);
    NanoporeNext(lines, i);
    AfterPrefix(NanoporeOutcomes(lines), NanoporeOutcomes(lines[..i]), NanoporeLine(lines, i));
  }

  /** The state `extract_nanopore_data` holds before line `i`: `parent` and
      `seq_date` are bound exactly when a header came before, and then hold the
      most recent header and the date part of it. */
  ghost predicate InContext(lines: seq<string>, i: nat, parent: Option<string>, seqDate: string)
    requires i <= |lines|
  {
    && (parent.Some? <==> LastHeader(lines, i).Some?)
    && (parent.Some? ==>
          parent.value == CleanLine(lines[LastHeader(lines, i).value]) && HeaderDate(parent.value) == Some(seqDate))
  }

  /** The body of the loop of `extract_nanopore_data`, for line `i`, with the
      variables `parent` and `seq_date` (`None` while unbound). */
  method NanoporeStep(lines: seq<string>, i: nat, parent: Option<string>, seqDate: string)
    returns (out: LineOutcome<NanoporeRecord, NanoporeError>, parent': Option<string>, seqDate': string)
    requires i < |lines| && InContext(lines, i, parent, seqDate)
    ensures out == NanoporeLine(lines, i)
    ensures !out.Crashed? ==> InContext(lines, i + 1, parent', seqDate')
  {
    var line := TrimEnd(lines[i], '\n');
    if StartsWith(line, "nanopore") {
      var segments := Split(line, '/');
      if |segments| < 2 {
        return Crashed(IndexError), parent, seqDate;
      }
      return Skipped, Some(line), FirstToken(segments[1], '_');
    }
    if parent.None? {
      return Crashed(UnboundLocalError), parent, seqDate;
    }
    var token := LastToken(line, ' ');
    var components := Split(token, '.');
    var built := BuildNanopore(seqDate, Slice(components[0], -2, |components[0]|), parent.value + "/" + token);
    parent', seqDate' := parent, seqDate;
    match built {
      case Built(rec) => out := Accepted(rec);
      case Invalid(failed) => out := Rejected(NanoporeError(line, seqDate, failed));
      case Aborted(fault) => out := Crashed(fault);
    }
  }

  /** `extract_nanopore_data(filepath, NanoporeDataModel)` on the lines of
      `filepath`: the first exception of the outcomes if there is one, and
      otherwise their records and error entries. */
  method ExtractNanoporeData(lines: seq<string>) returns (r: Extraction<NanoporeRecord, NanoporeError>)
    ensures r.Raised? <==> FirstCrash(NanoporeOutcomes(lines)).Some?
    ensures r.Raised? ==> FirstCrash(NanoporeOutcomes(lines)) == Some(r.fault)
    ensures r.Done? ==> r.data == Records(NanoporeOutcomes(lines)) && r.errors == Errors(NanoporeOutcomes(lines))
  {
    var data: seq<NanoporeRecord> := [];
    var errors: seq<NanoporeError> := [];
    var parent: Option<string> := None;
    var seqDate := "";
    ghost var outs: seq<LineOutcome<NanoporeRecord, NanoporeError>> := [];
    for i := 0 to |lines|
      invariant outs == NanoporeOutcomes(lines[..i])
      invariant FirstCrash(outs).None?
      invariant data == Records(outs) && errors == Errors(outs)
      invariant InContext(lines, i, parent, seqDate)
    {
      var outcome;
      outcome, parent, seqDate := NanoporeStep(lines, i, parent, seqDate);
      NanoporeNext(lines, i);
      CollectNext(outs, outcome);
      outs := outs + [outcome];
      match outcome {
        case Skipped =>
        case Accepted(rec) => data := data + [rec];
        case Rejected(entry) => errors := errors + [entry];
        case Crashed(fault) =>
          NanoporeOutcomesPrefix(lines, i + 1);
          FirstCrashOfPrefix(NanoporeOutcomes(lines), i + 1);
          return Raised(fault);
      }
    }
    assert lines[..|lines|] == lines;
    return Done(data, errors);
  }

  // ---------------------------------------------------------------- what the nanopore outcomes guarantee

  /** The date part of the most recent header before line `i`, if there is one and it has a "/". */
  function DateInEffect(lines: seq<string>, i: nat): Option<string>
    requires i <= |lines|
  {
    match LastHeader(lines, i)
    case None => None
    case Some(h) => HeaderDate(CleanLine(lines[h]))
  }

  /** `seq_date` is the part before the first `_` of the second `/`-segment of the header. */
  lemma HeaderDateIsSecondSegment(parent: string)
    requires '/' in parent
    ensures var rest := parent[|FirstToken(parent, '/')| + 1..];
      HeaderDate(parent) == Some(FirstToken(FirstToken(rest, '/'), '_'))
  {
    SplitTail(parent, '/');
  }

  /** A header line starts a new context: the lines after it see its date. */
  lemma HeaderStartsContext(lines: seq<string>, i: nat)
    requires i < |lines| && IsHeader(lines[i])
    ensures NanoporeLine(lines, i).Skipped? <==> '/' in CleanLine(lines[i])
    ensures DateInEffect(lines, i + 1) == HeaderDate(CleanLine(lines[i]))
  {
  }

  /** The context carries forward: across lines that are not headers, the date in
      effect does not change. */
  lemma {:induction false} ContextCarriesForward(lines: seq<string>, i: nat, j: nat)
    requires i <= j <= |lines|
    requires forall k :: i <= k < j ==> !IsHeader(lines[k])
    ensures LastHeader(lines, j) == LastHeader(lines, i)
    ensures DateInEffect(lines, j) == DateInEffect(lines, i)
    decreases j - i
  {
    if i < j {
      ContextCarriesForward(lines, i, j - 1);
    }
  }

  /** The only exceptions: a header without "/", a data line before any header
      (`UnboundLocalError`), and a data line under a header without "/" (which
      that header has already raised for). */
  lemma NanoporeCrashes(lines: seq<string>, i: nat)
    requires i < |lines|
    ensures var out, h := NanoporeLine(lines, i), LastHeader(lines, i);
      && (out.Crashed? <==>
            if IsHeader(lines[i]) then '/' !in CleanLine(lines[i])
            else h.None? || '/' !in CleanLine(lines[h.value]))
      && (out.Crashed? ==> out.fault == if !IsHeader(lines[i]) && h.None? then UnboundLocalError else IndexError)
  {
  }

  /** A file whose first line is not a header aborts with `UnboundLocalError`. */
  lemma DataBeforeHeaderAborts(lines: seq<string>)
    requires |lines| > 0 && !IsHeader(lines[0])
    ensures FirstCrash(NanoporeOutcomes(lines)) == Some(UnboundLocalError)
  {
    NanoporeAt(lines, 0);
  }

  /** A header without "/" aborts the run unless an earlier line already has. */
  lemma SlashlessHeaderAborts(lines: seq<string>, i: nat)
    requires i < |lines| && IsHeader(lines[i]) && '/' !in CleanLine(lines[i])
    requires FirstCrash(NanoporeOutcomes(lines[..i])).None?
    ensures FirstCrash(NanoporeOutcomes(lines)) == Some(IndexError)
  {
    NanoporeNext(lines, i);
    CollectNext(NanoporeOutcomes(lines[..i]), NanoporeLine(lines, i));
    NanoporeOutcomesPrefix(lines, i + 1);
    FirstCrashOfPrefix(NanoporeOutcomes(lines), i + 1);
  }

  /** The barcode candidate `components[0][-2:]` of a data line. */
  function BarcodeOf(line: string): (b: string)
    ensures var piece := FirstToken(LastToken(line, ' '), '.');
      && |b| == (if |piece| < 2 then |piece| else 2)
      && b == piece[|piece| - |b|..]
  {
    var piece := FirstToken(LastToken(line, ' '), '.');
    Slice(piece, -2, |piece|)
  }

  /** An accepted data line carries the canonical form of the date in effect. */
  lemma NanoporeAcceptedDate(lines: seq<string>, i: nat)
    requires i < |lines| && NanoporeLine(lines, i).Accepted?
    ensures var rec := NanoporeLine(lines, i).rec;
      && !IsHeader(lines[i]) && DateInEffect(lines, i).Some?
      && TransformDate(DateInEffect(lines, i).value) == Pass(rec.seqDate)
      && TransformDate(rec.seqDate) == Pass(rec.seqDate)
  {
    DateCanonical(DateInEffect(lines, i).value);
  }

  /** An accepted data line's barcode is the number its barcode candidate spells
      (below 100), and its path is the header line, "/", and the line's last
      space token. */
  lemma NanoporeAcceptedFields(lines: seq<string>, i: nat)
    requires i < |lines| && NanoporeLine(lines, i).Accepted?
    ensures var rec, line := NanoporeLine(lines, i).rec, CleanLine(lines[i]);
      && LastHeader(lines, i).Some?
      && IsNumeric(BarcodeOf(line)) && rec.barcodeNumber == DigitsValue(BarcodeOf(line)) && rec.barcodeNumber < 100
      && rec.pathToSeqFile == CleanLine(lines[LastHeader(lines, i).value]) + "/" + LastToken(line, ' ')
  {
    assert Pow10(2) == 100;
  }

  /** A rejected data line's entry holds the line, the date in effect, and
      exactly the fields that failed; the path never fails. */
  lemma NanoporeRejected(lines: seq<string>, i: nat)
    requires i < |lines| && NanoporeLine(lines, i).Rejected?
    ensures var entry, line := NanoporeLine(lines, i).entry, CleanLine(lines[i]);
      && !IsHeader(lines[i]) && DateInEffect(lines, i) == Some(entry.date)
      && entry.line == line && entry.failed != []
      && (SeqDate in entry.failed <==> TransformDate(entry.date).Reject?)
      && (BarcodeNumber in entry.failed <==> !IsNumeric(BarcodeOf(line)))
      && PathToSeqFile !in entry.failed
  {
  }

  /** The non-header lines, in order. */
  function DataLines(lines: seq<string>): seq<string>
  {
    Kept(IsDataLine, lines)
  }

  /** Without an exception, every non-header line adds exactly one record or one
      error entry and header lines add none. */
  lemma NanoporeEntryCount(lines: seq<string>)
    requires FirstCrash(NanoporeOutcomes(lines)).None?
    ensures |Records(NanoporeOutcomes(lines))| + |Errors(NanoporeOutcomes(lines))| == |DataLines(lines)|
  {
    var outs := NanoporeOutcomes(lines);
    FirstCrashIsFirst(outs);
    EntriesMatchHandled(outs);
    forall i | 0 <= i < |outs|
      ensures !outs[i].Crashed? && (outs[i].Skipped? <==> !IsDataLine(lines[i]))
    {
      NanoporeAt(lines, i);
    }
    HandledAreKept(outs, lines, IsDataLine);
  }

  /** A header `a/b_…` whose first segment `a` holds no "/" and whose date
      part `b` holds neither "/" nor "_" has date `b`. */
  lemma HeaderDateOf(a: string, b: string, rest: string)
    requires '/' !in a && '/' !in b && '_' !in b
    ensures HeaderDate(a + "/" + (b + "_" + rest)) == Some(b)
  {
    var tail := b + "_" + rest;
    SplitAfterPiece(a, '/', tail);
    FirstTokenAfterPiece(b + "_", '/', rest);
    SplitAfterPiece(b, '_', FirstToken(rest, '/'));
  }

  /** A header line as the file iterator yields it, `a/b_…` possibly ending
      in newlines, has date `b` once the loop strips them. */
  lemma RawHeaderDateOf(a: string, b: string, rest: string)
    requires '/' !in a && '/' !in b && '_' !in b && '\n' !in a && '\n' !in b
    ensures HeaderDate(CleanLine(a + "/" + (b + "_" + rest))) == Some(b)
  {
    var lead := a + "/" + (b + "_");
    assert a + "/" + (b + "_" + rest) == lead + rest;
    TrimEndAfterPiece(lead, rest, '\n');
    assert lead + TrimEnd(rest, '\n') == a + "/" + (b + "_" + TrimEnd(rest, '\n'));
    HeaderDateOf(a, b, TrimEnd(rest, '\n'));
  }

  /** The date part of a header "nanopore/20230101_…" is "20230101", whatever
      follows it, the newline the file iterator leaves included. */
  lemma NewYearHeader(rest: string)
    ensures var header := "nanopore" + "/" + ("20230101" + "_" + rest);
      IsHeader(header) && HeaderDate(CleanLine(header)) == Some("20230101")
  {
    var header := "nanopore" + "/" + ("20230101" + "_" + rest);
    assert header[..8] == "nanopore";
    RawHeaderDateOf("nanopore", "20230101", rest);
  }

  /** Given header "nanopore/20230101_…" followed by two data lines, the date in
      effect for both lines is "20230101". */
  lemma TwoLinesUnderOneHeader(rest: string, d1: string, d2: string)
    requires !IsHeader(d1) && !IsHeader(d2)
    ensures var lines := ["nanopore" + "/" + ("20230101" + "_" + rest), d1, d2];
      DateInEffect(lines, 1) == Some("20230101") && DateInEffect(lines, 2) == Some("20230101")
  {
    var lines := ["nanopore" + "/" + ("20230101" + "_" + rest), d1, d2];
    NewYearHeader(rest);
    assert LastHeader(lines, 1) == Some(0);
    assert LastHeader(lines, 2) == Some(0);
  }

  /** In that file, each data line carries "20230101": an accepted line as its
      record's date, a rejected line in its error entry. */
  lemma TwoLinesShareDate(rest: string, d1: string, d2: string, i: nat)
    requires !IsHeader(d1) && !IsHeader(d2) && 1 <= i < 3
    ensures var lines := ["nanopore" + "/" + ("20230101" + "_" + rest), d1, d2];
      && (NanoporeLine(lines, i).Accepted? ==> NanoporeLine(lines, i).rec.seqDate == "20230101")
      && (NanoporeLine(lines, i).Rejected? ==> NanoporeLine(lines, i).entry.date == "20230101")
  {
    var lines := ["nanopore" + "/" + ("20230101" + "_" + rest), d1, d2];
    TwoLinesUnderOneHeader(rest, d1, d2);
    if NanoporeLine(lines, i).Accepted? {
      NewYearAccepted();
      NanoporeAcceptedDate(lines, i);
    } else if NanoporeLine(lines, i).Rejected? {
      NanoporeRejected(lines, i);
    }
  }
}
