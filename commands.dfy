/**
 * The argument vectors `Aligner.__init__` builds for its three helper
 * processes: the forward aligner, the reverse aligner and the symmetrizer.
 * The two executable paths are opaque strings.
 */
module Commands {
  import opened Wrappers
  import opened ErrLog

  /** The heuristic used when the caller names none. */
  const DefaultHeuristic := "grow-diag-final-and"

  /** `fwd_cmd`: read the sentence pairs from stdin (`-i -`), favour the
   *  diagonal (`-d`), print scores (`-s`), with the trained tension, mean and
   *  parameter file. */
  function ForwardCommand(fastAlign: string, p: ModelParams, params: string): (argv: seq<string>)
    ensures |argv| == 11 && argv[0] == fastAlign
  {
    [fastAlign, "-i", "-", "-d", "-s", "-T", p.tension, "-m", p.mean, "-f", params]
  }

  /** `rev_cmd`: the forward command line with `-r` (reverse direction) appended. */
  function ReverseCommand(fastAlign: string, p: ModelParams, params: string): (argv: seq<string>)
    ensures argv == ForwardCommand(fastAlign, p, params) + ["-r"]
  {
    [fastAlign, "-i", "-", "-d", "-s", "-T", p.tension, "-m", p.mean, "-f", params, "-r"]
  }

  /** `tools_cmd`: the symmetrizer reads both link sets from stdin and merges
   *  them with the heuristic given after `-c`. */
  function SymmetrizerCommand(atools: string, heuristic: string := DefaultHeuristic): (argv: seq<string>)
    ensures |argv| == 7 && argv[0] == atools && argv[5..] == ["-c", heuristic]
  {
    [atools, "-i", "-", "-j", "-", "-c", heuristic]
  }

  /** The reverse command has the forward command's shape: only the tension,
   *  the mean and the parameter file differ, and `-r` is added last. */
  lemma ReverseCommandShape(fastAlign: string, fwd: ModelParams, fwdParams: string,
                            rev: ModelParams, revParams: string)
    ensures var f, r := ForwardCommand(fastAlign, fwd, fwdParams), ReverseCommand(fastAlign, rev, revParams);
      |r| == |f| + 1 && r[|r| - 1] == "-r" &&
      (forall i :: 0 <= i < |f| && i != 6 && i != 8 && i != 10 ==> r[i] == f[i]) &&
      r[6] == rev.tension && r[8] == rev.mean && r[10] == revParams
  {
  }

  /** Without an explicit heuristic the symmetrizer is asked for grow-diag-final-and. */
  lemma DefaultSymmetrizerCommand(atools: string)
    ensures SymmetrizerCommand(atools) == [atools, "-i", "-", "-j", "-", "-c", "grow-diag-final-and"]
  {
  }

  // ---------------------------------------------------------------------------
  // Reading a command line back, the way the helper programs parse it
  // ---------------------------------------------------------------------------

  /** One option as a getopt-style reader sees it: its letter, and its value
   *  when the option takes one. */
  datatype Arg = Flag(letter: char) | Valued(letter: char, value: string)

  /** The option letters of fast_align and atools used here that take a value. */
  const ValuedLetters: set<char> := {'i', 'j', 'c', 'T', 'm', 'f'}

  /** A single-letter option such as `-d`. */
  predicate IsOption(a: string) {
    |a| == 2 && a[0] == '-'
  }

  /** Reads options left to right: an option that takes a value consumes the
   *  argument after it whatever that argument looks like. None when an
   *  argument is not an option or a valued option comes last. */
  function ParseArgs(args: seq<string>): Option<seq<Arg>>
    decreases |args|
  {
    if args == [] then Some([])
    else if !IsOption(args[0]) then None
    else if args[0][1] in ValuedLetters then
      if |args| == 1 then None
      else match ParseArgs(args[2..])
        case None => None
        case Some(rest) => Some([Valued(args[0][1], args[1])] + rest)
    else match ParseArgs(args[1..])
      case None => None
      case Some(rest) => Some([Flag(args[0][1])] + rest)
  }

  /** The value given to the first occurrence of option `letter`. */
  function Lookup(opts: seq<Arg>, letter: char): Option<string>
    decreases |opts|
  {
    if opts == [] then None
    else if opts[0].Valued? && opts[0].letter == letter then Some(opts[0].value)
    else Lookup(opts[1..], letter)
  }

  /** Lookup finds the first occurrence of a valued option. */
  lemma {:induction false} LookupFirst(opts: seq<Arg>, letter: char, k: nat)
    requires k < |opts| && opts[k].Valued? && opts[k].letter == letter
    requires forall j :: 0 <= j < k ==> !(opts[j].Valued? && opts[j].letter == letter)
    ensures Lookup(opts, letter) == Some(opts[k].value)
    decreases k
  {
    if k > 0 {
      LookupFirst(opts[1..], letter, k - 1);
    }
  }

  /** Option `letter` is given without a value. */
  predicate HasFlag(opts: seq<Arg>, letter: char) {
    Flag(letter) in opts
  }

  /** The options both aligner command lines start with. */
  function AlignerOptions(p: ModelParams, params: string): seq<Arg> {
    [Valued('i', "-"), Flag('d'), Flag('s'), Valued('T', p.tension), Valued('m', p.mean), Valued('f', params)]
  }

  /** One step of the reader over an option that takes a value. */
  lemma ParseValued(args: seq<string>, letter: char, rest: seq<Arg>)
    requires |args| >= 2 && args[0] == ['-', letter] && letter in ValuedLetters
    requires ParseArgs(args[2..]) == Some(rest)
    ensures ParseArgs(args) == Some([Valued(letter, args[1])] + rest)
  {
  }

  /** One step of the reader over an option without a value. */
  lemma ParseFlag(args: seq<string>, letter: char, rest: seq<Arg>)
    requires |args| >= 1 && args[0] == ['-', letter] && letter !in ValuedLetters
    requires ParseArgs(args[1..]) == Some(rest)
    ensures ParseArgs(args) == Some([Flag(letter)] + rest)
  {
  }

  /** Parsing the part the two aligner command lines share. */
  lemma {:induction false} ParseAlignerOptions(args: seq<string>, p: ModelParams, params: string, tail: seq<Arg>)
    requires |args| >= 10
    requires args[..10] == ["-i", "-", "-d", "-s", "-T", p.tension, "-m", p.mean, "-f", params]
    requires ParseArgs(args[10..]) == Some(tail)
    ensures ParseArgs(args) == Some(AlignerOptions(p, params) + tail)
  {
    assert args[0] == "-i" && args[1] == "-" && args[2] == "-d" && args[3] == "-s";
    assert args[4] == "-T" && args[5] == p.tension && args[6] == "-m" && args[7] == p.mean;
    assert args[8] == "-f" && args[9] == params;
    var f := [Valued('f', params)] + tail;
    var m := [Valued('m', p.mean)] + f;
    var t := [Valued('T', p.tension)] + m;
    var ds := [Flag('s')] + t;
    var d := [Flag('d')] + ds;
    var i := [Valued('i', "-")] + d;
    assert args[8..][2..] == args[10..];
    ParseValued(args[8..], 'f', tail);
    assert args[6..][2..] == args[8..];
    ParseValued(args[6..], 'm', f);
    assert args[4..][2..] == args[6..];
    ParseValued(args[4..], 'T', m);
    assert args[3..][1..] == args[4..];
    ParseFlag(args[3..], 's', t);
    assert args[2..][1..] == args[3..];
    ParseFlag(args[2..], 'd', ds);
    assert args[0..] == args;
    ParseValued(args, 'i', d);
    assert i == AlignerOptions(p, params) + tail;
  }

  /** What a reader finds in the options the aligner command lines share,
   *  whatever follows them. */
  lemma AlignerOptionsLookups(p: ModelParams, params: string, tail: seq<Arg>)
    ensures var o := AlignerOptions(p, params) + tail;
      Lookup(o, 'T') == Some(p.tension) && Lookup(o, 'm') == Some(p.mean) &&
      Lookup(o, 'f') == Some(params) && Lookup(o, 'i') == Some("-") &&
      HasFlag(o, 'd') && HasFlag(o, 's')
  {
    var o := AlignerOptions(p, params) + tail;
    assert o[0] == Valued('i', "-") && o[1] == Flag('d') && o[2] == Flag('s');
    assert o[3] == Valued('T', p.tension) && o[4] == Valued('m', p.mean) && o[5] == Valued('f', params);
    LookupFirst(o, 'i', 0);
    LookupFirst(o, 'T', 3);
    LookupFirst(o, 'm', 4);
    LookupFirst(o, 'f', 5);
  }

  /** The shared options do not ask for the reverse direction. */
  lemma AlignerOptionsNotReversed(p: ModelParams, params: string)
    ensures !HasFlag(AlignerOptions(p, params), 'r')
  {
    var o := AlignerOptions(p, params);
    forall k | 0 <= k < |o|
      ensures o[k] != Flag('r')
    {
    }
  }

  /** The forward aligner, reading its command line, receives exactly the
   *  trained tension, mean and parameter file, reads stdin and is not
   *  switched to the reverse direction. */
  lemma ForwardCommandReadsBack(fastAlign: string, p: ModelParams, params: string)
    ensures var o := ParseArgs(ForwardCommand(fastAlign, p, params)[1..]);
      o.Some? &&
      Lookup(o.value, 'T') == Some(p.tension) && Lookup(o.value, 'm') == Some(p.mean) &&
      Lookup(o.value, 'f') == Some(params) && Lookup(o.value, 'i') == Some("-") &&
      HasFlag(o.value, 'd') && HasFlag(o.value, 's') && !HasFlag(o.value, 'r')
  {
    var args := ForwardCommand(fastAlign, p, params)[1..];
    assert args[10..] == [];
    assert ParseArgs([]) == Some([]);
    ParseAlignerOptions(args, p, params, []);
    var o := AlignerOptions(p, params);
    assert o + [] == o;
    AlignerOptionsLookups(p, params, []);
    AlignerOptionsNotReversed(p, params);
  }

  /** The reverse aligner receives the same kind of settings and `-r`. */
  lemma ReverseCommandReadsBack(fastAlign: string, p: ModelParams, params: string)
    ensures var o := ParseArgs(ReverseCommand(fastAlign, p, params)[1..]);
      o.Some? &&
      Lookup(o.value, 'T') == Some(p.tension) && Lookup(o.value, 'm') == Some(p.mean) &&
      Lookup(o.value, 'f') == Some(params) && Lookup(o.value, 'i') == Some("-") &&
      HasFlag(o.value, 'd') && HasFlag(o.value, 's') && HasFlag(o.value, 'r')
  {
    var args := ReverseCommand(fastAlign, p, params)[1..];
    assert args[10..] == ["-r"];
    assert ParseArgs([]) == Some([]);
    ParseFlag(["-r"], 'r', []);
    assert [Flag('r')] + [] == [Flag('r')];
    ParseAlignerOptions(args, p, params, [Flag('r')]);
    var o := AlignerOptions(p, params) + [Flag('r')];
    AlignerOptionsLookups(p, params, [Flag('r')]);
    assert o[6] == Flag('r');
  }

  /** The symmetrizer reads both inputs from stdin and receives the heuristic. */
  lemma SymmetrizerCommandReadsBack(atools: string, heuristic: string)
    ensures var o := ParseArgs(SymmetrizerCommand(atools, heuristic)[1..]);
      o.Some? && Lookup(o.value, 'c') == Some(heuristic) &&
      Lookup(o.value, 'i') == Some("-") && Lookup(o.value, 'j') == Some("-")
  {
    var args := SymmetrizerCommand(atools, heuristic)[1..];
    var c := [Valued('c', heuristic)];
    var j := [Valued('j', "-")] + c;
    assert args[4..][2..] == [];
    assert ParseArgs([]) == Some([]);
    assert c + [] == c;
    assert args[4] == "-c";
    assert ParseArgs(args[4..]) == Some(c);
    assert args[2..][2..] == args[4..];
    assert args[2] == "-j";
    assert ParseArgs(args[2..]) == Some(j);
    assert args[0] == "-i";
    var o := [Valued('i', "-")] + j;
    assert ParseArgs(args) == Some(o);
    LookupFirst(o, 'i', 0);
    LookupFirst(o, 'j', 1);
    LookupFirst(o, 'c', 2);
  }
}
