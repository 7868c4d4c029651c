/** The validators of `IlluminaDataModel` and `NanoporeDataModel`, each a pure
    function from the raw field string to a normalised value, a rejection
    (the validator raised `ValueError`, which pydantic turns into a
    `ValidationError`), or a crash (the validator raised `IndexError`, which
    pydantic does not catch), and the two record builders that run every
    validator of a model in field order. */
module DataModels {
  import opened PyStr
  import Dates

  /** What one validator does with one value. */
  datatype Check<T> = Pass(value: T) | Reject | Crash(fault: Fault)

  datatype Field =
    | SampleId | SampleIdSuffix | Seq | SampleLen | ReadType | Filename
    | SeqDate | BarcodeNumber | PathToSeqFile

  datatype IlluminaRecord = IlluminaRecord(
    sampleId: string, sampleIdSuffix: string, sequence: string, sampleLen: string, readType: nat, filename: string)

  datatype NanoporeRecord = NanoporeRecord(seqDate: string, barcodeNumber: nat, pathToSeqFile: string)

  /** What constructing a model does: a record, a `ValidationError` listing the
      fields that failed, or an exception that escapes. */
  datatype Build<T> = Built(rec: T) | Invalid(failed: seq<Field>) | Aborted(fault: Fault)

  // ================================================================ Illumina validators

  /** A sample-id token: digits in one or more non-empty groups separated by single hyphens. */
  ghost predicate SampleToken(t: string) {
    && |t| > 0 && t[0] != '-' && t[|t| - 1] != '-'
    && (forall i :: 0 <= i < |t| ==> IsDigit(t[i]) || t[i] == '-')
    && (forall i, j :: 0 <= i < j < |t| && j == i + 1 && t[i] == '-' ==> t[j] != '-')
  }

  predicate AllNumeric(parts: seq<string>) { forall i :: 0 <= i < |parts| ==> IsNumeric(parts[i]) }

  /** `clean_sample_id`: the first hyphen group of the last space token. */
  function CleanSampleId(v: string): (r: Check<string>)
    ensures !r.Crash?
    ensures r.Pass? ==> IsNumeric(r.value) && '-' !in r.value
  {
    var segments := Split(LastToken(v, ' '), '-');
    if AllNumeric(segments) then Pass(segments[0]) else Reject
  }

  /** `clean_sample_id_suffix`: the remaining hyphen groups of the last space token. */
  function CleanSampleIdSuffix(v: string): (r: Check<string>)
    ensures !r.Crash?
    ensures r.Pass? <==> CleanSampleId(v).Pass?
  {
    var segments := Split(LastToken(v, ' '), '-');
    if AllNumeric(segments) then Pass(Join(segments[1..], '-')) else Reject
  }

  /** One non-digit character followed by one or more digits. */
  predicate PrefixedDigits(v: string) {
    |v| >= 2 && !IsDigit(v[0]) && forall i :: 1 <= i < |v| ==> IsDigit(v[i])
  }

  /** `check_sequence`: `v[0]` raises on the empty string. */
  function CheckSequence(v: string): (r: Check<string>)
    ensures r.Crash? <==> v == ""
    ensures r.Crash? ==> r.fault == IndexError
    ensures r.Pass? <==> PrefixedDigits(v)
    ensures r.Pass? ==> r.value == v
  {
    if |v| == 0 then Crash(IndexError)
    else if IsDigit(v[0]) || !IsNumeric(Slice(v, 1, |v|)) then Reject
    else Pass(v)
  }

  /** `check_length`: the digits are looked for in `v[1:-1]`, so the last character is free. */
  function CheckLength(v: string): (r: Check<string>)
    ensures r.Crash? <==> v == ""
    ensures r.Crash? ==> r.fault == IndexError
    ensures r.Pass? <==> |v| >= 3 && !IsDigit(v[0]) && forall i :: 1 <= i < |v| - 1 ==> IsDigit(v[i])
    ensures r.Pass? ==> r.value == v
  {
    if |v| == 0 then Crash(IndexError)
    else if IsDigit(v[0]) || !IsNumeric(Slice(v, 1, -1)) then Reject
    else Pass(v)
  }

  /** `clean_read_type`: the same test as `check_sequence`, keeping `int(v[1:])`. */
  function CleanReadType(v: string): (r: Check<nat>)
    ensures r.Crash? <==> CheckSequence(v).Crash?
    ensures r.Crash? ==> r.fault == IndexError
    ensures r.Pass? <==> CheckSequence(v).Pass?
    ensures r.Pass? ==> r.value < Pow10(|v| - 1)
  {
    if |v| == 0 then Crash(IndexError)
    else
      var digits := Slice(v, 1, |v|);
      if IsDigit(v[0]) || !IsNumeric(digits) then Reject
      else Pass(DigitsValue(digits))
  }

  /** `check_filename`: keeps the last space token; `endswith` is tested before `[0]`. */
  function CheckFilename(v: string): (r: Check<string>)
    ensures !r.Crash?
    ensures r.Pass? ==> r.value == LastToken(v, ' ') && ' ' !in r.value
    ensures r.Pass? ==> |r.value| >= 3 && IsDigit(r.value[0]) && EndsWith(r.value, ".gz")
    ensures r.Reject? ==> !EndsWith(LastToken(v, ' '), ".gz") || !IsDigit(LastToken(v, ' ')[0])
  {
    var name := LastToken(v, ' ');
    if !EndsWith(name, ".gz") || !IsDigit(name[0]) then Reject else Pass(name)
  }

  // ================================================================ Nanopore validators

  /** `transform_date`: `strptime` then `strftime` with `%Y%m%d`. */
  function TransformDate(v: string): (r: Check<string>)
    ensures !r.Crash?
    ensures r.Pass? ==> |r.value| == 8 && AllDigits(r.value)
  {
    match Dates.Strptime(v)
    case None => Reject
    case Some(d) => Pass(Dates.Strftime(d))
  }

  /** `transform_barcode`: `int(v)` of a numeric string. */
  function TransformBarcode(v: string): (r: Check<nat>)
    ensures !r.Crash?
    ensures r.Pass? <==> IsNumeric(v)
    ensures r.Pass? ==> r.value < Pow10(|v|)
  {
    if !IsNumeric(v) then Reject else Pass(DigitsValue(v))
  }

  /** `check_path`: builds a `Path` and drops it; nothing is ever rejected. */
  function CheckPath(v: string): (r: Check<string>)
    ensures r.Pass? && r.value == v
  {
    Pass(v)
  }

  // ================================================================ record builders

  function FlagIf(failed: bool, f: Field): seq<Field> { if failed then [f] else [] }

  /** The fields, out of three, whose flag is set, in the given order. */
  function Flagged(a: bool, fa: Field, b: bool, fb: Field, c: bool, fc: Field): (failed: seq<Field>)
    ensures failed == [] <==> !(a || b || c)
    ensures forall g :: g in failed <==> (a && g == fa) || (b && g == fb) || (c && g == fc)
  {
    FlagIf(a, fa) + FlagIf(b, fb) + FlagIf(c, fc)
  }

  /** The fields whose validators rejected, in field declaration order. */
  function Failures(
    sampleId: bool, sampleIdSuffix: bool, sequence: bool, sampleLen: bool, readType: bool, filename: bool)
    : (failed: seq<Field>)
    ensures failed == [] <==> !(sampleId || sampleIdSuffix || sequence || sampleLen || readType || filename)
    ensures (SampleId in failed <==> sampleId) && (SampleIdSuffix in failed <==> sampleIdSuffix)
    ensures (Seq in failed <==> sequence) && (SampleLen in failed <==> sampleLen)
    ensures (ReadType in failed <==> readType) && (Filename in failed <==> filename)
  {
    var front := Flagged(sampleId, SampleId, sampleIdSuffix, SampleIdSuffix, sequence, Seq);
    var back := Flagged(sampleLen, SampleLen, readType, ReadType, filename, Filename);
    assert SampleId !in back && SampleIdSuffix !in back && Seq !in back;
    assert SampleLen !in front && ReadType !in front && Filename !in front;
    front + back
  }

  /** `IlluminaDataModel(...)`: every validator runs, in field order; an
      exception other than `ValueError` escapes at once, otherwise every
      failing field is reported. */
  function BuildIllumina(
    sampleId: string, sampleIdSuffix: string, sequence: string, sampleLen: string, readType: string, filename: string)
    : (r: Build<IlluminaRecord>)
    ensures r.Aborted? <==> sequence == "" || sampleLen == "" || readType == ""
    ensures r.Aborted? ==> r.fault == IndexError
    ensures r.Built? <==>
      && CleanSampleId(sampleId).Pass? && CleanSampleIdSuffix(sampleIdSuffix).Pass?
      && CheckSequence(sequence).Pass? && CheckLength(sampleLen).Pass?
      && CleanReadType(readType).Pass? && CheckFilename(filename).Pass?
    ensures r.Built? ==> r.rec == IlluminaRecord(
      CleanSampleId(sampleId).value, CleanSampleIdSuffix(sampleIdSuffix).value, sequence, sampleLen,
      CleanReadType(readType).value, CheckFilename(filename).value)
    ensures r.Invalid? ==> r.failed != []
    ensures r.Invalid? ==>
      && (SampleId in r.failed <==> CleanSampleId(sampleId).Reject?)
      && (SampleIdSuffix in r.failed <==> CleanSampleIdSuffix(sampleIdSuffix).Reject?)
      && (Seq in r.failed <==> CheckSequence(sequence).Reject?)
      && (SampleLen in r.failed <==> CheckLength(sampleLen).Reject?)
      && (ReadType in r.failed <==> CleanReadType(readType).Reject?)
      && (Filename in r.failed <==> CheckFilename(filename).Reject?)
  {
    var id, suffix, sq, len, rt, name :=
      CleanSampleId(sampleId), CleanSampleIdSuffix(sampleIdSuffix), CheckSequence(sequence),
      CheckLength(sampleLen), CleanReadType(readType), CheckFilename(filename);
    if sq.Crash? then Aborted(sq.fault)
    else if len.Crash? then Aborted(len.fault)
    else if rt.Crash? then Aborted(rt.fault)
    else
      var failed := Failures(id.Reject?, suffix.Reject?, sq.Reject?, len.Reject?, rt.Reject?, name.Reject?);
      if failed == [] then Built(IlluminaRecord(id.value, suffix.value, sq.value, len.value, rt.value, name.value))
      else Invalid(failed)
  }

  /** `NanoporeDataModel(...)`: none of its validators raises anything but `ValueError`. */
  function BuildNanopore(seqDate: string, barcodeNumber: string, pathToSeqFile: string): (r: Build<NanoporeRecord>)
    ensures !r.Aborted?
    ensures r.Built? <==> TransformDate(seqDate).Pass? && IsNumeric(barcodeNumber)
    ensures r.Built? ==> r.rec == NanoporeRecord(
      TransformDate(seqDate).value, TransformBarcode(barcodeNumber).value, pathToSeqFile)
    ensures r.Invalid? ==> r.failed != []
    ensures r.Invalid? ==>
      && (SeqDate in r.failed <==> TransformDate(seqDate).Reject?)
      && (BarcodeNumber in r.failed <==> !IsNumeric(barcodeNumber))
      && PathToSeqFile !in r.failed
  {
    var date, barcode, path := TransformDate(seqDate), TransformBarcode(barcodeNumber), CheckPath(pathToSeqFile);
    var failed := Flagged(date.Reject?, SeqDate, barcode.Reject?, BarcodeNumber, path.Reject?, PathToSeqFile);
    if failed == [] then Built(NanoporeRecord(date.value, barcode.value, path.value)) else Invalid(failed)
  }

  // ================================================================ properties of the validators

  lemma {:induction false} JoinedGroupsAreSampleToken(parts: seq<string>)
    requires |parts| >= 1 && AllNumeric(parts)
    ensures SampleToken(Join(parts, '-'))
    decreases |parts|
  {
    if |parts| > 1 {
      var p, rest := parts[0], parts[1..];
      JoinedGroupsAreSampleToken(rest);
      var j := Join(rest, '-');
      var t := p + ['-'] + j;
      assert Join(parts, '-') == t;
      forall i | 0 <= i < |t| ensures IsDigit(t[i]) || t[i] == '-' {
        if i > |p| { assert t[i] == j[i - |p| - 1]; }
      }
      forall i, k | 0 <= i < k < |t| && k == i + 1 && t[i] == '-' ensures t[k] != '-' {
        if i > |p| { assert t[i] == j[i - |p| - 1] && t[k] == j[i - |p|]; }
      }
    }
  }

  lemma {:induction false} SampleTokenGroups(parts: seq<string>)
    requires |parts| >= 1
    requires forall i :: 0 <= i < |parts| ==> '-' !in parts[i]
    requires SampleToken(Join(parts, '-'))
    ensures AllNumeric(parts)
    decreases |parts|
  {
    var t := Join(parts, '-');
    if |parts| == 1 {
      assert t == parts[0];
    } else {
      var p, rest := parts[0], parts[1..];
      var j := Join(rest, '-');
      assert t == p + ['-'] + j;
      assert |p| > 0;
      assert AllDigits(p) by {
        forall i | 0 <= i < |p| ensures IsDigit(p[i]) { assert t[i] == p[i]; }
      }
      assert |j| > 0;
      assert j[0] != '-' by { assert t[|p|] == '-' && t[|p| + 1] == j[0]; }
      assert j[|j| - 1] == t[|t| - 1];
      forall i | 0 <= i < |j| ensures IsDigit(j[i]) || j[i] == '-' { assert j[i] == t[|p| + 1 + i]; }
      forall i, k | 0 <= i < k < |j| && k == i + 1 && j[i] == '-' ensures j[k] != '-' {
        assert j[i] == t[|p| + 1 + i] && j[k] == t[|p| + 2 + i];
      }
      SampleTokenGroups(rest);
    }
  }

  /** `clean_sample_id` accepts exactly the hyphen-grouped numerals. */
  lemma SampleIdAccepts(v: string)
    ensures CleanSampleId(v).Pass? <==> SampleToken(LastToken(v, ' '))
  {
    var segments := Split(LastToken(v, ' '), '-');
    if AllNumeric(segments) {
      JoinedGroupsAreSampleToken(segments);
    } else if SampleToken(LastToken(v, ' ')) {
      SampleTokenGroups(segments);
    }
  }

  /** Sample id and suffix put back together give the token: the suffix is empty
      exactly when the token has no hyphen, and otherwise `id + "-" + suffix`. */
  lemma SampleIdRoundTrip(v: string)
    requires CleanSampleId(v).Pass?
    ensures var t, id, suffix := LastToken(v, ' '), CleanSampleId(v).value, CleanSampleIdSuffix(v).value;
      && (suffix == "" <==> '-' !in t)
      && (if suffix == "" then id else id + "-" + suffix) == t
  {
    var t := LastToken(v, ' ');
    var segments := Split(t, '-');
    var suffix := Join(segments[1..], '-');
    if |segments| == 1 {
      assert '-' !in t;
    } else {
      assert t == segments[0] + ['-'] + suffix;
      assert t[|segments[0]|] == '-';
      assert |suffix| > 0 by {
        var rest := segments[1..];
        assert IsNumeric(rest[0]);
        if |rest| > 1 { assert suffix == rest[0] + ['-'] + Join(rest[1..], '-'); }
      }
    }
  }

  /** `clean_read_type` reads back the number after any one non-digit mark. */
  lemma ReadTypeRoundTrip(mark: char, n: nat)
    requires !IsDigit(mark)
    ensures CleanReadType([mark] + Decimal(n)) == Pass(n)
  {
    var v := [mark] + Decimal(n);
    assert Slice(v, 1, |v|) == Decimal(n);
    DecimalValue(n);
  }

  /** `check_length` never looks at the last character. */
  lemma LengthLastCharFree(v: string, last: char)
    requires CheckLength(v).Pass?
    ensures CheckLength(v[..|v| - 1] + [last]) == Pass(v[..|v| - 1] + [last])
  {
    var w := v[..|v| - 1] + [last];
    assert forall i :: 0 <= i < |v| - 1 ==> w[i] == v[i];
  }

  /** Every `check_sequence` value of length 3 or more passes `check_length`; the
      two-character "L1" passes `check_sequence` but not `check_length`. */
  lemma LengthVersusSequence(v: string)
    ensures CheckSequence(v).Pass? && |v| >= 3 ==> CheckLength(v).Pass?
    ensures CheckSequence("L1") == Pass("L1") && CheckLength("L1") == Reject
  {
    assert Slice("L1", 1, 2) == "1";
    assert Slice("L1", 1, -1) == "";
  }

  /** `check_filename` is idempotent: its value is a single token that passes again. */
  lemma FilenameIdempotent(v: string)
    requires CheckFilename(v).Pass?
    ensures CheckFilename(CheckFilename(v).value) == CheckFilename(v)
  {
    var name := CheckFilename(v).value;
    SplitWithoutSep(name, ' ');
  }

  /** `transform_barcode` reads `str(n)` back as `n`. */
  lemma BarcodeRoundTrip(n: nat)
    ensures TransformBarcode(Decimal(n)) == Pass(n)
  {
    DecimalValue(n);
  }

  /** On eight digits, `transform_date` accepts exactly the valid calendar dates
      (so month 13 and 30 February are rejected) and returns the string itself. */
  lemma DateOfEightDigits(v: string)
    requires |v| == 8 && AllDigits(v)
    ensures TransformDate(v) == if Dates.ValidDate(Dates.Spelled(v)) then Pass(v) else Reject
  {
    Dates.EightDigits(v);
    Dates.SpelledRenders(v);
  }

  /** Whatever `transform_date` returns is eight digits it returns unchanged. */
  lemma DateCanonical(v: string)
    requires TransformDate(v).Pass?
    ensures TransformDate(TransformDate(v).value) == TransformDate(v)
  {
    var d := Dates.Strptime(v).value;
    var s := Dates.Strftime(d);
    Dates.StrftimeSpells(d);
    DateOfEightDigits(s);
  }

  lemma MonthThirteenRejected()
    ensures TransformDate("20231301") == Reject
  {
    DateOfEightDigits("20231301");
  }

  lemma FebruaryThirtiethRejected()
    ensures TransformDate("20230230") == Reject
  {
    DateOfEightDigits("20230230");
  }

  lemma LeapDayAccepted()
    ensures TransformDate("20240229") == Pass("20240229")
  {
    DateOfEightDigits("20240229");
  }

  lemma CommonYearLeapDayRejected()
    ensures TransformDate("20230229") == Reject
  {
    DateOfEightDigits("20230229");
    assert !Dates.IsLeapYear(Dates.Spelled("20230229").year);
  }

  lemma NewYearAccepted()
    ensures TransformDate("20230101") == Pass("20230101")
  {
    DateOfEightDigits("20230101");
  }

  /** A built Illumina record keeps the sequence and length as given and holds
      the read type's number. */
  lemma BuiltIlluminaFields(
    sampleId: string, sampleIdSuffix: string, sequence: string, sampleLen: string, readType: string, filename: string)
    requires BuildIllumina(sampleId, sampleIdSuffix, sequence, sampleLen, readType, filename).Built?
    ensures var rec := BuildIllumina(sampleId, sampleIdSuffix, sequence, sampleLen, readType, filename).rec;
      && rec.sequence == sequence && PrefixedDigits(sequence)
      && rec.sampleLen == sampleLen
      && PrefixedDigits(readType) && rec.readType == DigitsValue(readType[1..])
  {
    assert Slice(readType, 1, |readType|) == readType[1..];
  }

  /** When every field but the sequence is rejected, the record fails on exactly
      those five fields, in declaration order. */
  lemma BuildWithoutSequence(
    sampleId: string, sampleIdSuffix: string, sequence: string, sampleLen: string, readType: string, filename: string)
    requires CleanSampleId(sampleId).Reject? && CleanSampleIdSuffix(sampleIdSuffix).Reject?
    requires CheckSequence(sequence).Pass? && CheckLength(sampleLen).Reject?
    requires CleanReadType(readType).Reject? && CheckFilename(filename).Reject?
    ensures BuildIllumina(sampleId, sampleIdSuffix, sequence, sampleLen, readType, filename)
      == Invalid([SampleId, SampleIdSuffix, SampleLen, ReadType, Filename])
  {
    assert Failures(true, true, false, true, true, true) == [SampleId, SampleIdSuffix, SampleLen, ReadType, Filename];
  }

  // ---------------------------------------------------------------- the fields of one line

  /** The sample-id fields of the line "2201-02 A123_B456_C7_sample.fastq.gz"
      fail: the last space token of its first `_` part is "A123". */
  lemma LetterTokenSampleId()
    ensures CleanSampleId("2201-02 A123") == Reject && CleanSampleIdSuffix("2201-02 A123") == Reject
  {
    assert "2201-02 A123" == "2201-02" + " " + "A123";
    SplitTwo("2201-02", "A123", ' ');
    SplitWithoutSep("A123", '-');
  }

  /** Its other fields: the sequence "B456" passes; "C7" has nothing between its
      first and last character, and "sample.fastq.gz" is not a non-digit
      followed by digits. */
  lemma LetterTokenParts()
    ensures CheckSequence("B456") == Pass("B456")
    ensures CheckLength("C7") == Reject
    ensures CleanReadType("sample.fastq.gz") == Reject
  {
  }

  /** So the record of that line is rejected on five of its six fields; only the
      sequence passes. */
  lemma LetterTokenRejected()
    ensures BuildIllumina("2201-02 A123", "2201-02 A123", "B456", "C7", "sample.fastq.gz",
      "2201-02" + " " + "A123_B456_C7_sample.fastq.gz")
      == Invalid([SampleId, SampleIdSuffix, SampleLen, ReadType, Filename])
  {
    LetterTokenSampleId();
    LetterTokenParts();
    LetterTokenFilename();
    BuildWithoutSequence("2201-02 A123", "2201-02 A123", "B456", "C7", "sample.fastq.gz",
      "2201-02" + " " + "A123_B456_C7_sample.fastq.gz");
  }

  /** Its file name fails: the last space token of the line starts with "A". */
  lemma LetterTokenFilename()
    ensures CheckFilename("2201-02" + " " + "A123_B456_C7_sample.fastq.gz") == Reject
  {
    SplitTwo("2201-02", "A123_B456_C7_sample.fastq.gz", ' ');
  }
}
