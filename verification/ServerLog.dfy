/**
 Which log calls reach the log file and which reach the external sink.  The two method
 sets are parameters; nothing below depends on what is in them.
 */
module ServerLog {
  datatype LogLevel = Verbose | Debug | Info | Warn | Off

  /** One call of `log`. */
  datatype Entry = Entry(prefix: string, service: string, name: string, detail: string)

  /** The curated method names: those that change something, and those worth a debug line. */
  datatype Policy = Policy(mutating: set<string>, debug: set<string>)

  const MAX_DETAIL: nat := 800

  /** Details beyond 800 characters are cut in the file; the sink gets all of them. */
  function Shortened(e: Entry): Entry {
    if |e.detail| > MAX_DETAIL then e.(detail := e.detail[..MAX_DETAIL] + "...") else e
  }

  predicate IsError(e: Entry) {
    |e.prefix| >= 1 && e.prefix[0] == 'E'
  }

  predicate IsRequest(e: Entry) {
    |e.prefix| >= 3 && e.prefix[0] == 'R' && e.prefix[1] == 'E' && e.prefix[2] == 'Q'
  }

  class Log {
    const policy: Policy
    const level: LogLevel
    const fileOpen: bool
    const sinkSet: bool
    var file: seq<Entry>
    var sink: seq<Entry>

    constructor (policy: Policy, level: LogLevel, fileOpen: bool, sinkSet: bool)
      ensures this.policy == policy && this.level == level && this.fileOpen == fileOpen && this.sinkSet == sinkSet
      ensures file == [] && sink == []
    {
      this.policy, this.level, this.fileOpen, this.sinkSet := policy, level, fileOpen, sinkSet;
      file, sink := [], [];
    }

    method Write(e: Entry)
      modifies this
      ensures file == old(file) + if fileOpen && ToFile(policy, level, e) then [Shortened(e)] else []
      ensures sink == old(sink) + if sinkSet && ToSink(policy, level, e) then [e] else []
    {
      var isError, isReq := IsError(e), IsRequest(e);
      if isReq && level != Verbose {
        return;
      }
      var forward := isError || e.name in policy.mutating || e.name in policy.debug || level == Verbose;
      if forward && sinkSet {
        sink := sink + [e];
      }
      if level == Off {
        return;
      }
      if level == Warn && !isError {
        return;
      }
      if level == Info && !isError && e.name !in policy.mutating {
        return;
      }
      if level == Debug && !isError && e.name !in policy.mutating && e.name !in policy.debug {
        return;
      }
      if fileOpen {
        file := file + [Shortened(e)];
      }
    }

    /** The calls of a whole run, one after the other. */
    method WriteAll(es: seq<Entry>)
      modifies this
      ensures fileOpen ==> file == old(file) + FileLines(policy, level, es)
      ensures sinkSet ==> sink == old(sink) + SinkLines(policy, level, es)
      ensures !fileOpen ==> file == old(file)
      ensures !sinkSet ==> sink == old(sink)
    {
      for i := 0 to |es|
        invariant file == old(file) + if fileOpen then FileLines(policy, level, es[..i]) else []
        invariant sink == old(sink) + if sinkSet then SinkLines(policy, level, es[..i]) else []
      {
        assert es[..i + 1][..i] == es[..i];
        Write(es[i]);
      }
      assert es[..|es|] == es;
    }
  }

  /** The calls that matter at the given level, stated by level rather than by filter. */
  predicate ToFile(policy: Policy, level: LogLevel, e: Entry) {
    match level
    case Verbose => true
    case Debug => !IsRequest(e) && (IsError(e) || e.name in policy.mutating || e.name in policy.debug)
    case Info => !IsRequest(e) && (IsError(e) || e.name in policy.mutating)
    case Warn => IsError(e)
    case Off => false
  }

  predicate ToSink(policy: Policy, level: LogLevel, e: Entry) {
    level == Verbose || (!IsRequest(e) && (IsError(e) || e.name in policy.mutating || e.name in policy.debug))
  }

  /**
   Which calls are written, prefix by prefix and level by level: errors everywhere but at off,
   requests at verbose only, responses of mutating methods from info on, of debug methods from
   debug on, and of all others at verbose only.
   */
  lemma WhatIsWritten(policy: Policy, level: LogLevel, e: Entry)
    ensures e.prefix == "ERR" ==> (ToFile(policy, level, e) <==> level != Off) && ToSink(policy, level, e)
    ensures e.prefix == "REQ" ==>
              (ToFile(policy, level, e) <==> level == Verbose) && (ToSink(policy, level, e) <==> level == Verbose)
    ensures e.prefix == "RES" && e.name in policy.mutating ==>
              (ToFile(policy, level, e) <==> level in {Info, Debug, Verbose}) && ToSink(policy, level, e)
    ensures e.prefix == "RES" && e.name in policy.debug && e.name !in policy.mutating ==>
              (ToFile(policy, level, e) <==> level in {Debug, Verbose}) && ToSink(policy, level, e)
    ensures e.prefix == "RES" && e.name !in policy.mutating && e.name !in policy.debug ==>
              (ToFile(policy, level, e) <==> level == Verbose) && (ToSink(policy, level, e) <==> level == Verbose)
  {
    assert "ERR"[0] == 'E' && "RES"[0] == 'R' && "RES"[2] == 'S';
    assert "REQ"[0] == 'R' && "REQ"[1] == 'E' && "REQ"[2] == 'Q';
  }

  /** A line of the file has the whole detail, or its first 800 characters and three dots. */
  lemma ShortenedDetail(e: Entry)
    ensures Shortened(e) == e.(detail := Shortened(e).detail)
    ensures |e.detail| <= 800 ==> Shortened(e).detail == e.detail
    ensures |e.detail| > 800 ==> Shortened(e).detail == e.detail[..800] + "..."
  {
  }

  function FileLines(policy: Policy, level: LogLevel, es: seq<Entry>): seq<Entry> {
    if es == [] then []
    else
      var last := es[|es| - 1];
      FileLines(policy, level, es[..|es| - 1]) + if ToFile(policy, level, last) then [Shortened(last)] else []
  }

  function SinkLines(policy: Policy, level: LogLevel, es: seq<Entry>): seq<Entry> {
    if es == [] then []
    else
      var last := es[|es| - 1];
      SinkLines(policy, level, es[..|es| - 1]) + if ToSink(policy, level, last) then [last] else []
  }

  /** `small` can be had from `large` by leaving lines out. */
  predicate Subsequence(small: seq<Entry>, large: seq<Entry>) {
    if small == [] then true
    else if large == [] then false
    else
      var s, l := |small| - 1, |large| - 1;
      (small[s] == large[l] && Subsequence(small[..s], large[..l])) || Subsequence(small, large[..l])
  }

  /** How talkative a level is. */
  function Rank(level: LogLevel): nat {
    match level
    case Off => 0
    case Warn => 1
    case Info => 2
    case Debug => 3
    case Verbose => 4
  }

  lemma BothAppended(small: seq<Entry>, large: seq<Entry>, e: Entry)
    requires Subsequence(small, large)
    ensures Subsequence(small + [e], large + [e])
    ensures Subsequence(small, large + [e])
  {
    assert (small + [e])[..|small|] == small && (large + [e])[..|large|] == large;
  }

  /** For every run, what the file gets at a level is a subsequence of what it gets at a more talkative one. */
  lemma {:induction false} LevelsFormAChain(policy: Policy, quiet: LogLevel, loud: LogLevel, es: seq<Entry>)
    requires Rank(quiet) <= Rank(loud)
    ensures Subsequence(FileLines(policy, quiet, es), FileLines(policy, loud, es))
  {
    if es != [] {
      var init, last := es[..|es| - 1], es[|es| - 1];
      LevelsFormAChain(policy, quiet, loud, init);
      BothAppended(FileLines(policy, quiet, init), FileLines(policy, loud, init), Shortened(last));
      assert FileLines(policy, quiet, init) + [] == FileLines(policy, quiet, init);
      assert FileLines(policy, loud, init) + [] == FileLines(policy, loud, init);
    }
  }

  /** The sink gets the same lines at every level but verbose. */
  lemma {:induction false} SinkIgnoresLevel(policy: Policy, a: LogLevel, b: LogLevel, es: seq<Entry>)
    requires a != Verbose && b != Verbose
    ensures SinkLines(policy, a, es) == SinkLines(policy, b, es)
  {
    if es != [] {
      SinkIgnoresLevel(policy, a, b, es[..|es| - 1]);
    }
  }

  function AllShortened(es: seq<Entry>): seq<Entry> {
    if es == [] then [] else AllShortened(es[..|es| - 1]) + [Shortened(es[|es| - 1])]
  }

  lemma ShortenedAppended(es: seq<Entry>, e: Entry)
    ensures AllShortened(es + [e]) == AllShortened(es) + [Shortened(e)]
  {
    assert (es + [e])[..|es|] == es;
  }

  /** At debug and at verbose the file has the very lines of the sink, long details cut. */
  lemma {:induction false} FileIsSinkAtDebugAndVerbose(policy: Policy, level: LogLevel, es: seq<Entry>)
    requires level == Debug || level == Verbose
    ensures FileLines(policy, level, es) == AllShortened(SinkLines(policy, level, es))
  {
    if es != [] {
      var init, last := es[..|es| - 1], es[|es| - 1];
      FileIsSinkAtDebugAndVerbose(policy, level, init);
      ShortenedAppended(SinkLines(policy, level, init), last);
      assert SinkLines(policy, level, init) + [] == SinkLines(policy, level, init);
    }
  }

  // ---------------------------------------------------------------- level names

  function LevelName(level: LogLevel): string {
    match level
    case Verbose => "verbose"
    case Debug => "debug"
    case Info => "info"
    case Warn => "warn"
    case Off => "off"
  }

  function ParseLevel(s: string): LogLevel {
    if s == "verbose" then Verbose
    else if s == "debug" then Debug
    else if s == "info" then Info
    else if s == "warn" then Warn
    else if s == "off" then Off
    else Debug
  }

  /** Parsing undoes naming, and whatever is not a name is taken for debug. */
  lemma ParseOfName(level: LogLevel, s: string)
    ensures ParseLevel("verbose") == Verbose && ParseLevel("debug") == Debug && ParseLevel("info") == Info
    ensures ParseLevel("warn") == Warn && ParseLevel("off") == Off
    ensures ParseLevel(LevelName(level)) == level
    ensures LevelName(ParseLevel(s)) == s || (ParseLevel(s) == Debug && forall l :: LevelName(l) != s)
  {
    assert "debug" != "verbose" && |"info"| != |"debug"| && |"off"| != |"warn"| && "info" != "warn" by {
      assert "debug"[0] != "verbose"[0] && "info"[0] != "warn"[0];
    }
  }
}
