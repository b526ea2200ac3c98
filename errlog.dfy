/**
 * Recovery of the two fast_align hyperparameters from a training log
 * (`Aligner.read_err`).  The log is given as its sequence of lines; opening
 * and reading the file is not modelled.
 */
module ErrLog {
  import opened PyStr

  /** Marker of the line that reports the length-ratio mean `m`. */
  const ExpectedLength := "expected target length"
  /** Marker of the line that reports the tension `T`. */
  const FinalTension := "final tension"

  /** The pair `(T, m)` returned by `read_err`: tension first, mean second.
   *  Both are kept as text; an empty string means "marker never seen". */
  datatype ModelParams = ModelParams(tension: string, mean: string)

  /** A line that makes `read_err` update `m`. */
  predicate SetsMean(line: string) {
    Contains(line, ExpectedLength)
  }

  /** A line that makes `read_err` update `T`: the `elif` branch, so a line
   *  holding both markers is not one of them. */
  predicate SetsTension(line: string) {
    !Contains(line, ExpectedLength) && Contains(line, FinalTension)
  }

  /** A line that leaves `(T, m)` as it was. */
  predicate Neutral(line: string) {
    !Contains(line, ExpectedLength) && !Contains(line, FinalTension)
  }

  /** Both markers hold a non-blank character, so a line that contains one of
   *  them has a last token. */
  lemma MarkerLineHasToken(line: string)
    requires Contains(line, ExpectedLength) || Contains(line, FinalTension)
    ensures !AllSpace(line)
  {
    assert !IsSpace(ExpectedLength[0]) && !IsSpace(FinalTension[0]);
    if Contains(line, ExpectedLength) {
      ContainsNonSpace(line, ExpectedLength);
    } else {
      ContainsNonSpace(line, FinalTension);
    }
  }

  /** One iteration of the loop body of `read_err`. */
  function Scan(p: ModelParams, line: string): (q: ModelParams)
    ensures Neutral(line) ==> q == p
    ensures SetsMean(line) ==> q.tension == p.tension && q.mean != [] && NoSpace(q.mean)
    ensures SetsTension(line) ==> q.mean == p.mean && q.tension != [] && NoSpace(q.tension)
  {
    if Contains(line, ExpectedLength) then
      MarkerLineHasToken(line);
      p.(mean := LastToken(line))
    else if Contains(line, FinalTension) then
      MarkerLineHasToken(line);
      p.(tension := LastToken(line))
    else p
  }

  /** What `read_err` returns for a log, line by line from the first; every
   *  value it returns is empty or a single whitespace-free token. */
  function LogParams(lines: seq<string>): (p: ModelParams)
    ensures NoSpace(p.tension) && NoSpace(p.mean)
  {
    if lines == [] then ModelParams("", "")
    else Scan(LogParams(lines[..|lines| - 1]), lines[|lines| - 1])
  }

  /** `Aligner.read_err`: one pass over the log updating `T` and `m`. */
  method ReadErr(lines: seq<string>) returns (t: string, m: string)
    ensures ModelParams(t, m) == LogParams(lines)
  {
    t, m := "", "";
    for i := 0 to |lines|
      invariant ModelParams(t, m) == LogParams(lines[..i])
    {
      var line := lines[i];
      assert lines[..i + 1][..i] == lines[..i];
      if Contains(line, ExpectedLength) {
        MarkerLineHasToken(line);
        m := LastToken(line);
      } else if Contains(line, FinalTension) {
        MarkerLineHasToken(line);
        t := LastToken(line);
      }
    }
    assert lines[..|lines|] == lines;
  }

  // ---------------------------------------------------------------------------
  // What the scan recovers
  // ---------------------------------------------------------------------------

  /** `m` is the last token of the last line that mentions the expected target
   *  length: later matches overwrite earlier ones. */
  lemma {:induction false} MeanFromLastMarker(lines: seq<string>, k: nat)
    requires k < |lines| && SetsMean(lines[k])
    requires forall j :: k < j < |lines| ==> !SetsMean(lines[j])
    ensures !AllSpace(lines[k]) && LogParams(lines).mean == LastToken(lines[k])
  {
    MarkerLineHasToken(lines[k]);
    var init := lines[..|lines| - 1];
    if k < |lines| - 1 {
      assert init[k] == lines[k];
      assert forall j :: k < j < |init| ==> init[j] == lines[j];
      MeanFromLastMarker(init, k);
    }
  }

  /** `T` is the last token of the last line that mentions the final tension
   *  without also mentioning the expected target length. */
  lemma {:induction false} TensionFromLastMarker(lines: seq<string>, k: nat)
    requires k < |lines| && SetsTension(lines[k])
    requires forall j :: k < j < |lines| ==> !SetsTension(lines[j])
    ensures !AllSpace(lines[k]) && LogParams(lines).tension == LastToken(lines[k])
  {
    MarkerLineHasToken(lines[k]);
    var init := lines[..|lines| - 1];
    if k < |lines| - 1 {
      assert init[k] == lines[k];
      assert forall j :: k < j < |init| ==> init[j] == lines[j];
      TensionFromLastMarker(init, k);
    }
  }

  /** `m` is non-empty exactly when some line mentions the expected target length. */
  lemma {:induction false} MeanSetIff(lines: seq<string>)
    ensures LogParams(lines).mean != "" <==> exists k :: 0 <= k < |lines| && SetsMean(lines[k])
  {
    if lines != [] {
      var init := lines[..|lines| - 1];
      MeanSetIff(init);
      assert forall k :: 0 <= k < |init| ==> init[k] == lines[k];
      if SetsMean(lines[|lines| - 1]) {
        MarkerLineHasToken(lines[|lines| - 1]);
      }
    }
  }

  /** `T` is non-empty exactly when some line sets it. */
  lemma {:induction false} TensionSetIff(lines: seq<string>)
    ensures LogParams(lines).tension != "" <==> exists k :: 0 <= k < |lines| && SetsTension(lines[k])
  {
    if lines != [] {
      var init := lines[..|lines| - 1];
      TensionSetIff(init);
      assert forall k :: 0 <= k < |init| ==> init[k] == lines[k];
      if SetsTension(lines[|lines| - 1]) {
        MarkerLineHasToken(lines[|lines| - 1]);
      }
    }
  }

  /** A log in which neither marker appears gives `('', '')`. */
  lemma NoMarkers(lines: seq<string>)
    requires forall k :: 0 <= k < |lines| ==> Neutral(lines[k])
    ensures LogParams(lines) == ModelParams("", "")
  {
    MeanSetIff(lines);
    TensionSetIff(lines);
  }

  /** The scan of a log with one more line is one more step of the loop. */
  lemma LogParamsSnoc(lines: seq<string>, line: string)
    ensures LogParams(lines + [line]) == Scan(LogParams(lines), line)
  {
    assert (lines + [line])[..|lines|] == lines;
  }

  /** Removing a line that holds neither marker, wherever it stands, does not
   *  change what the scan recovers. */
  lemma {:induction false} DropNeutralLine(before: seq<string>, line: string, after: seq<string>)
    requires Neutral(line)
    ensures LogParams(before + [line] + after) == LogParams(before + after)
    decreases |after|
  {
    if after == [] {
      assert before + [line] + after == before + [line];
      assert before + after == before;
      LogParamsSnoc(before, line);
    } else {
      var init := after[..|after| - 1];
      var x := after[|after| - 1];
      DropNeutralLine(before, line, init);
      assert after == init + [x];
      assert before + [line] + after == (before + [line] + init) + [x];
      assert before + after == (before + init) + [x];
      LogParamsSnoc(before + [line] + init, x);
      LogParamsSnoc(before + init, x);
    }
  }

  /** Appending lines that hold neither marker does not change the result. */
  lemma {:induction false} AppendNeutral(lines: seq<string>, extra: seq<string>)
    requires forall k :: 0 <= k < |extra| ==> Neutral(extra[k])
    ensures LogParams(lines + extra) == LogParams(lines)
    decreases |extra|
  {
    if extra != [] {
      var init := extra[..|extra| - 1];
      AppendNeutral(lines, init);
      assert (lines + extra)[..|lines + extra| - 1] == lines + init;
    } else {
      assert lines + extra == lines;
    }
  }

  /** The mean line fast_align prints at the end of training:
   *  `expected target length = source length * 1.0231`. */
  const MeanLead := ExpectedLength + " = source length * "
  const MeanLine := MeanLead + "1.0231"
  /** The tension line fast_align prints at the end of training:
   *  `final tension: 4.2731`. */
  const TensionLead := FinalTension + ": "
  const TensionLine := TensionLead + "4.2731"

  lemma MeanLineScanned()
    ensures SetsMean(MeanLine) && !AllSpace(MeanLine) && LastToken(MeanLine) == "1.0231"
  {
    assert MeanLine[0..] == MeanLine;
    assert ExpectedLength <= MeanLine[0..];
    assert MeanLead[|MeanLead| - 1] == ' ';
    assert MeanLead + "1.0231" + "" == MeanLine;
    LastTokenCharacterized(MeanLead, "1.0231", "");
  }

  lemma TensionLineScanned()
    ensures SetsTension(TensionLine) && !AllSpace(TensionLine) && LastToken(TensionLine) == "4.2731"
  {
    ShorterNotContains(TensionLine, ExpectedLength);
    assert TensionLine[0..] == TensionLine;
    assert FinalTension <= TensionLine[0..];
    assert TensionLead[|TensionLead| - 1] == ' ';
    assert TensionLead + "4.2731" + "" == TensionLine;
    LastTokenCharacterized(TensionLead, "4.2731", "");
  }

  /** The two lines fast_align prints at the end of training give back both
   *  values, tension first and mean second. */
  lemma ReadErrExample()
    ensures LogParams([MeanLine, TensionLine]) == ModelParams("4.2731", "1.0231")
  {
    MeanLineScanned();
    TensionLineScanned();
    var lines := [MeanLine, TensionLine];
    assert lines[..1] == [MeanLine];
    assert [MeanLine][..0] == [];
    assert LogParams([MeanLine]) == ModelParams("", "1.0231");
  }
}
