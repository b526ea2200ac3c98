/**
 * The `Aligner` of force_align.py: it starts a forward and a reverse
 * fast_align process and an atools symmetrizer, and for each sentence pair
 * feeds the pair to both aligners, passes the two link fields to the
 * symmetrizer, forward first, and returns its merged line.
 *
 * The external processes are abstract: each is the function that gives the
 * line it prints in answer to its input (one line for an aligner, the forward
 * and then the reverse line for the symmetrizer), which is the lock-step
 * behaviour the pipeline assumes.  What is written to each process's stdin is
 * recorded, line by line, in a sequence field.
 */
module ForceAlign {
  import opened Wrappers
  import opened PyStr
  import opened ErrLog
  import opened Commands

  /** The separator between the fields of an aligner output line
   *  `f words ||| e words ||| links ||| score`. */
  const FieldSep := "|||"

  /** `line.split('|||')[2].strip()`: the link field of an aligner output
   *  line, without surrounding whitespace.  None where Python raises
   *  IndexError, i.e. when the line has fewer than three fields. */
  function LinkField(line: string): (r: Option<string>)
    ensures r.Some? <==> |Split(line, FieldSep)| >= 3
  {
    var fields := Split(line, FieldSep);
    if |fields| < 3 then None else Some(Strip(fields[2]))
  }

  /** The link field exists exactly when the line has at least three fields;
   *  it has no whitespace at either end and holds no field separator. */
  lemma LinkFieldShape(line: string)
    ensures LinkField(line).Some? <==> |Split(line, FieldSep)| >= 3
    ensures LinkField(line).Some? ==>
      var r := LinkField(line).value;
      (r == [] || (!IsSpace(r[0]) && !IsSpace(r[|r| - 1]))) && !Contains(r, FieldSep)
  {
    var fields := Split(line, FieldSep);
    if |fields| >= 3 {
      PieceWithoutSeparator(fields[2], Strip(fields[2]), FieldSep);
    }
  }

  /** A piece of a string that holds no separator holds none either. */
  lemma PieceWithoutSeparator(s: string, t: string, sep: string)
    requires Contains(s, t) && !Contains(s, sep)
    ensures !Contains(t, sep)
  {
    var i :| 0 <= i <= |s| && t <= s[i..];
    forall j | 0 <= j <= |t|
      ensures !(sep <= t[j..])
    {
      OccurrenceFromPrefix(t, s[i..], sep, j);
      assert s[i..][j..] == s[i + j..];
    }
  }

  /** The text ends with a bar, so it would run into a following separator. */
  predicate EndsWithBar(p: string) {
    p != [] && p[|p| - 1] == '|'
  }

  /** A field without `|||` that does not end with a bar is cut exactly at the
   *  separator that follows it. */
  lemma SeparatorAfterField(p: string)
    requires !Contains(p, FieldSep) && !EndsWithBar(p)
    ensures Find(p + FieldSep, FieldSep) == Some(|p|)
  {
    var s := p + FieldSep;
    assert s[|p|..] == FieldSep;
    forall j | 0 <= j < |p|
      ensures !(FieldSep <= s[j..])
    {
      if j + |FieldSep| <= |p| {
        OccurrenceInPrefix(p, s, FieldSep, j);
      } else {
        NoStraddle(p, j);
      }
    }
    FindIs(s, FieldSep, |p|);
  }

  /** A separator cannot start in the last two characters of a field that
   *  does not end with a bar. */
  lemma NoStraddle(p: string, j: nat)
    requires j < |p| < j + |FieldSep| && p[|p| - 1] != '|'
    ensures !(FieldSep <= (p + FieldSep)[j..])
  {
    var d := |p| - 1 - j;
    assert (p + FieldSep)[j..][d] == p[|p| - 1];
    assert d == 0 || d == 1 || d == 2;
    assert FieldSep[0] == '|' && FieldSep[1] == '|' && FieldSep[2] == '|';
  }

  /** On an aligner line built from fields that hold no separator (and, but
   *  for the last, do not end with a bar), the link field is the third field
   *  without its surrounding whitespace. */
  lemma LinkFieldOfFields(parts: seq<string>)
    requires |parts| >= 3
    requires forall k :: 0 <= k < |parts| ==> !Contains(parts[k], FieldSep)
    requires forall k :: 0 <= k < |parts| - 1 ==> !EndsWithBar(parts[k])
    ensures LinkField(Join(parts, FieldSep)) == Some(Strip(parts[2]))
  {
    forall k | 0 <= k < |parts| - 1
      ensures Find(parts[k] + FieldSep, FieldSep) == Some(|parts[k]|)
    {
      SeparatorAfterField(parts[k]);
    }
    SplitJoin(parts, FieldSep);
  }

  /** Text without a bar holds no separator. */
  lemma NoBarNoSeparator(p: string)
    requires '|' !in p
    ensures !Contains(p, FieldSep) && !EndsWithBar(p)
  {
    forall j | 0 <= j <= |p|
      ensures !(FieldSep <= p[j..])
    {
      if j < |p| {
        assert p[j..][0] == p[j];
      }
    }
  }

  lemma JoinFour(a: string, b: string, c: string, d: string)
    ensures Join([a, b, c, d], FieldSep) == a + FieldSep + b + FieldSep + c + FieldSep + d
  {
    assert [a, b, c, d][1..] == [b, c, d] && [b, c, d][1..] == [c, d] && [c, d][1..] == [d];
    assert Join([d], FieldSep) == d;
    assert Join([c, d], FieldSep) == c + FieldSep + d;
    assert Join([b, c, d], FieldSep) == b + FieldSep + (c + FieldSep + d);
  }

  /** A forward aligner's reply to the example pair `le chat ||| the cat`. */
  const ForwardReply := "le chat " + FieldSep + " the cat " + FieldSep + " 0-0 1-1 " + FieldSep + " -2.0"
  /** A reverse aligner's reply to the example pair `le chat ||| the cat`. */
  const ReverseReply := "le chat " + FieldSep + " the cat " + FieldSep + " 0-0 1-1 " + FieldSep + " -1.8"

  /** A reply to the example pair whose link field is ` 0-0 1-1 `, whatever its score. */
  lemma ExampleLinks(score: string)
    requires '|' !in score
    ensures LinkField("le chat " + FieldSep + " the cat " + FieldSep + " 0-0 1-1 " + FieldSep + score)
         == Some("0-0 1-1")
  {
    var f, e, l := "le chat ", " the cat ", " 0-0 1-1 ";
    NoBarNoSeparator(f);
    NoBarNoSeparator(e);
    NoBarNoSeparator(l);
    NoBarNoSeparator(score);
    JoinFour(f, e, l, score);
    LinkFieldOfFields([f, e, l, score]);
    StripExampleLinks();
  }

  lemma StripExampleLinks()
    ensures Strip(" 0-0 1-1 ") == "0-0 1-1"
  {
    var r := "0-0 1-1";
    assert !IsSpace(r[0]) && !IsSpace(r[|r| - 1]);
    StripUnique(" ", r, " ");
    assert " " + r + " " == " 0-0 1-1 ";
  }

  /** The link field of both example replies is `0-0 1-1`. */
  lemma LinkFieldExample()
    ensures LinkField(ForwardReply) == Some("0-0 1-1")
    ensures LinkField(ReverseReply) == Some("0-0 1-1")
  {
    ExampleLinks(" -2.0");
    ExampleLinks(" -1.8");
  }

  /** Why `align` could not produce a result: the forward or the reverse
   *  aligner printed a line with fewer than three fields. */
  datatype AlignError = MalformedForward(reply: string) | MalformedReverse(reply: string)

  /** The link fields of an aligner's replies to the given input lines, in
   *  order; None for a reply with fewer than three fields. */
  ghost function LinksOf(align: string -> string, ins: seq<string>): (links: seq<Option<string>>)
    ensures |links| == |ins|
    decreases |ins|
  {
    if ins == [] then []
    else LinksOf(align, ins[..|ins| - 1]) + [LinkField(align(ins[|ins| - 1]))]
  }

  /** One more input line adds the link field of one more reply. */
  lemma LinksOfAppend(align: string -> string, ins: seq<string>, line: string)
    ensures LinksOf(align, ins + [line]) == LinksOf(align, ins) + [LinkField(align(line))]
  {
    assert (ins + [line])[..|ins|] == ins;
  }

  /** The lock-step relation between what the aligners replied and what the
   *  symmetrizer was sent: for each sentence pair in order, the forward and
   *  then the reverse link field. */
  ghost predicate Synced(fwdLinks: seq<Option<string>>, revLinks: seq<Option<string>>, toolsIn: seq<string>)
  {
    |revLinks| == |fwdLinks| && |toolsIn| == 2 * |fwdLinks| &&
    forall k :: 0 <= k < |fwdLinks| ==>
      fwdLinks[k] == Some(toolsIn[2 * k]) && revLinks[k] == Some(toolsIn[2 * k + 1])
  }

  /** Sending both link fields of one more pair, forward first, keeps the
   *  symmetrizer in step with the aligners. */
  lemma SyncedAppend(fwdLinks: seq<Option<string>>, revLinks: seq<Option<string>>, toolsIn: seq<string>,
                     f: string, b: string)
    requires Synced(fwdLinks, revLinks, toolsIn)
    ensures Synced(fwdLinks + [Some(f)], revLinks + [Some(b)], toolsIn + [f, b])
  {
    var fs, rs, ts := fwdLinks + [Some(f)], revLinks + [Some(b)], toolsIn + [f, b];
    forall k | 0 <= k < |fs|
      ensures fs[k] == Some(ts[2 * k]) && rs[k] == Some(ts[2 * k + 1])
    {
      if k < |fwdLinks| {
        assert fs[k] == fwdLinks[k] && rs[k] == revLinks[k];
        assert ts[2 * k] == toolsIn[2 * k] && ts[2 * k + 1] == toolsIn[2 * k + 1];
      }
    }
  }

  class Aligner {
    /** The forward fast_align process: its output line for one input line. */
    const fwdAlign: string -> string
    /** The reverse fast_align process: its output line for one input line. */
    const revAlign: string -> string
    /** The atools process: its output line after a forward and a reverse link line. */
    const symmetrize: (string, string) -> string

    /** The command lines the three processes were started with. */
    const fwdCmd: seq<string>
    const revCmd: seq<string>
    const toolsCmd: seq<string>

    /** The lines written so far to each process's stdin, oldest first. */
    var fwdIn: seq<string>
    var revIn: seq<string>
    var toolsIn: seq<string>

    /** Lock-step: both aligners were sent the same sentence pairs, and the
     *  symmetrizer, for each of them in order, exactly the forward and then
     *  the reverse link field of the aligners' replies. */
    ghost predicate InSync()
      reads this
    {
      fwdIn == revIn && Synced(LinksOf(fwdAlign, fwdIn), LinksOf(revAlign, revIn), toolsIn)
    }

    /** `Aligner.__init__`: reads both training logs and builds the three
     *  command lines; no process has been sent anything yet. */
    constructor (fastAlign: string, atools: string,
                 fwdAlign: string -> string, revAlign: string -> string,
                 symmetrize: (string, string) -> string,
                 fwdParams: string, fwdErr: seq<string>, revParams: string, revErr: seq<string>,
                 heuristic: string := DefaultHeuristic)
      ensures this.fwdAlign == fwdAlign && this.revAlign == revAlign && this.symmetrize == symmetrize
      ensures fwdCmd == ForwardCommand(fastAlign, LogParams(fwdErr), fwdParams)
      ensures revCmd == ReverseCommand(fastAlign, LogParams(revErr), revParams)
      ensures toolsCmd == SymmetrizerCommand(atools, heuristic)
      ensures fwdIn == [] && revIn == [] && toolsIn == []
      ensures InSync()
    {
      var fwdT, fwdM := ReadErr(fwdErr);
      var revT, revM := ReadErr(revErr);
      this.fwdAlign, this.revAlign, this.symmetrize := fwdAlign, revAlign, symmetrize;
      fwdCmd := ForwardCommand(fastAlign, ModelParams(fwdT, fwdM), fwdParams);
      revCmd := ReverseCommand(fastAlign, ModelParams(revT, revM), revParams);
      toolsCmd := SymmetrizerCommand(atools, heuristic);
      fwdIn, revIn, toolsIn := [], [], [];
    }

    /** `Aligner.align`: the sentence pair, a single line as `main` reads it,
     *  goes once to each aligner; the
     *  symmetrizer then receives exactly two lines, the forward link field
     *  and the reverse link field; its reply is returned without surrounding
     *  whitespace.  A reply with fewer than three fields stops the call, and
     *  the processes are then out of step. */
    method Align(line: string) returns (r: Result<string, AlignError>)
      requires '\n' !in line
      requires InSync()
      modifies this
      ensures fwdIn == old(fwdIn) + [line] && revIn == old(revIn) + [line]
      ensures var f, b := LinkField(fwdAlign(line)), LinkField(revAlign(line));
        if f.None? then r == Failure(MalformedForward(fwdAlign(line))) && toolsIn == old(toolsIn)
        else if b.None? then r == Failure(MalformedReverse(revAlign(line))) && toolsIn == old(toolsIn)
        else toolsIn == old(toolsIn) + [f.value, b.value] &&
             r == Success(Strip(symmetrize(f.value, b.value)))
      ensures r.Success? ==> r.value == [] || (!IsSpace(r.value[0]) && !IsSpace(r.value[|r.value| - 1]))
      ensures r.Success? <==> InSync()
    {
      LinksOfAppend(fwdAlign, fwdIn, line);
      LinksOfAppend(revAlign, revIn, line);
      fwdIn := fwdIn + [line];
      revIn := revIn + [line];
      var fwdReply := fwdAlign(line);
      var fwdLinks := LinkField(fwdReply);
      if fwdLinks.None? {
        return Failure(MalformedForward(fwdReply));
      }
      var revReply := revAlign(line);
      var revLinks := LinkField(revReply);
      if revLinks.None? {
        return Failure(MalformedReverse(revReply));
      }
      SyncedAppend(LinksOf(fwdAlign, old(fwdIn)), LinksOf(revAlign, old(revIn)), toolsIn,
                   fwdLinks.value, revLinks.value);
      toolsIn := toolsIn + [fwdLinks.value, revLinks.value];
      var merged := symmetrize(fwdLinks.value, revLinks.value);
      r := Success(Strip(merged));
    }
  }

  /** The symmetrizer stub of the example scenario echoes the forward links,
   *  newline-terminated; its stripped reply is the links. */
  lemma EchoStripped(links: string)
    requires links == [] || (!IsSpace(links[0]) && !IsSpace(links[|links| - 1]))
    ensures Strip(links + "\n") == links
  {
    StripUnique("", links, "\n");
    assert "" + links + "\n" == links + "\n";
  }

  /** The example sentence pair, a single input line. */
  const ExamplePair := "le chat ||| the cat"

  lemma ExamplePairIsOneLine()
    ensures '\n' !in ExamplePair
  {
    forall k | 0 <= k < |ExamplePair|
      ensures ExamplePair[k] != '\n'
    {
    }
  }

  /** An example sentence pair run through `Align`, with aligner stubs that print
   *  the example replies and a symmetrizer stub that echoes the forward
   *  links: the symmetrizer is sent `0-0 1-1` twice, forward first, and the
   *  call returns `0-0 1-1`. */
  method LeChatScenario() returns (sent: seq<string>, result: Result<string, AlignError>)
    ensures sent == ["0-0 1-1", "0-0 1-1"]
    ensures result == Success("0-0 1-1")
  {
    LinkFieldExample();
    EchoStripped("0-0 1-1");
    ExamplePairIsOneLine();
    var a := new Aligner("fast_align", "atools",
                         (l: string) => ForwardReply, (l: string) => ReverseReply,
                         (f: string, r: string) => f + "\n",
                         "fwd_params", [], "rev_params", []);
    result := a.Align(ExamplePair);
    sent := a.toolsIn;
  }
}
