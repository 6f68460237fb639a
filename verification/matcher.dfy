/**
 * `_gist_matches`: walks a gist's files in order and, within each file, the
 * streamed lines in order, and answers true at the first line the pattern
 * matches at its start.
 */
module Matcher {
  import opened Schema
  import opened Http

  /**
   * A compiled pattern: its source text (`regex.pattern`) and `regex.match`
   * read as "matches at the start of the line". The regular-expression
   * engine itself is abstract.
   */
  datatype Regex = Regex(pattern: string, matchesAtStart: string -> bool)

  /** Some line of the file matches at its start. */
  ghost predicate FileMatches(lines: seq<string>, regex: Regex) {
    exists i :: 0 <= i < |lines| && regex.matchesAtStart(lines[i])
  }

  /** Some line of some file of the gist matches at its start. */
  ghost predicate GistMatches(gist: Gist, raw: string -> seq<string>, regex: Regex) {
    exists j :: 0 <= j < |gist.files| && FileMatches(raw(gist.files[j].file.rawUrl), regex)
  }

  /** The index of the first matching line, or the number of lines if none matches. */
  ghost function FirstMatch(lines: seq<string>, regex: Regex): (k: nat)
    ensures k <= |lines|
    ensures forall i :: 0 <= i < k ==> !regex.matchesAtStart(lines[i])
    ensures k < |lines| ==> regex.matchesAtStart(lines[k])
    ensures k < |lines| <==> FileMatches(lines, regex)
  {
    if lines == [] then 0
    else if regex.matchesAtStart(lines[0]) then 0
    else 1 + FirstMatch(lines[1..], regex)
  }

  /** The index of the first file with a matching line, or the number of files if none has one. */
  ghost function FirstMatchingFile(files: seq<FileEntry>, raw: string -> seq<string>, regex: Regex): (k: nat)
    ensures k <= |files|
    ensures forall j :: 0 <= j < k ==> !FileMatches(raw(files[j].file.rawUrl), regex)
    ensures k < |files| ==> FileMatches(raw(files[k].file.rawUrl), regex)
  {
    if files == [] then 0
    else if FileMatches(raw(files[0].file.rawUrl), regex) then 0
    else 1 + FirstMatchingFile(files[1..], raw, regex)
  }

  /**
   * The lines the scan consumes from the streamed body of `url`, starting at
   * line `i`: every line up to and including the first one that matches.
   */
  ghost function LinesTrace(url: string, lines: seq<string>, regex: Regex, i: nat): (t: seq<Event>)
    requires i <= |lines|
    ensures forall k :: 0 <= k < |t| ==> t[k].LineRead? && t[k].url == url
    decreases |lines| - i
  {
    if i == |lines| then []
    else [LineRead(url, i)] + (if regex.matchesAtStart(lines[i]) then [] else LinesTrace(url, lines, regex, i + 1))
  }

  /** The requests the scan of one file makes: the GET, then the lines it consumes. */
  ghost function FileTrace(url: string, lines: seq<string>, regex: Regex): seq<Event>
  {
    [FileGet(url)] + LinesTrace(url, lines, regex, 0)
  }

  /** The requests the scan of a gist's files makes, stopping after the first file that matches. */
  ghost function GistTrace(files: seq<FileEntry>, raw: string -> seq<string>, regex: Regex): seq<Event>
  {
    if files == [] then []
    else
      var url := files[0].file.rawUrl;
      FileTrace(url, raw(url), regex) + (if FileMatches(raw(url), regex) then [] else GistTrace(files[1..], raw, regex))
  }

  /**
   * The scan of one file reads the lines at indices i, i + 1, ... up to the
   * first matching line, and no line after it.
   */
  lemma {:induction false} LinesReadUpToFirstMatch(url: string, lines: seq<string>, regex: Regex, i: nat)
    requires i <= FirstMatch(lines, regex)
    ensures var k := FirstMatch(lines, regex);
            var n := if k < |lines| then k + 1 else |lines|;
            var t := LinesTrace(url, lines, regex, i);
            |t| == n - i && forall d :: 0 <= d < |t| ==> t[d] == LineRead(url, i + d)
    decreases |lines| - i
  {
    if i < |lines| && !regex.matchesAtStart(lines[i]) {
      LinesReadUpToFirstMatch(url, lines, regex, i + 1);
    }
  }

  /** Scanning one file makes exactly one raw-content request. */
  lemma FileTraceFetchesOnce(url: string, lines: seq<string>, regex: Regex)
    ensures FileGets(FileTrace(url, lines, regex)) == [url]
  {
    var lt := LinesTrace(url, lines, regex, 0);
    NoFileGets(lt);
    FileGetsAppend([FileGet(url)], lt);
  }

  /**
   * The scan of a gist fetches the files in order, up to and including the
   * first file with a matching line, and none after it; a gist without
   * files fetches nothing.
   */
  lemma {:induction false} FilesFetchedUpToFirstMatch(files: seq<FileEntry>, raw: string -> seq<string>, regex: Regex)
    ensures var k := FirstMatchingFile(files, raw, regex);
            var n := if k < |files| then k + 1 else |files|;
            var fs := FileGets(GistTrace(files, raw, regex));
            |fs| == n && forall j :: 0 <= j < n ==> fs[j] == files[j].file.rawUrl
  {
    if files != [] {
      var url := files[0].file.rawUrl;
      FileTraceFetchesOnce(url, raw(url), regex);
      if FileMatches(raw(url), regex) {
        FileGetsAppend(FileTrace(url, raw(url), regex), []);
      } else {
        FileGetsAppend(FileTrace(url, raw(url), regex), GistTrace(files[1..], raw, regex));
        FilesFetchedUpToFirstMatch(files[1..], raw, regex);
      }
    }
  }

  /**
   * The inner loop of `_gist_matches`: opens the streamed body of one raw
   * file and consumes its lines until one matches at its start.
   */
  method MatchFile(session: Session, url: string, regex: Regex) returns (found: bool)
    modifies session`log
    ensures found == FileMatches(session.api.raw(url), regex)
    ensures session.log == old(session.log) + FileTrace(url, session.api.raw(url), regex)
  {
    var lines := session.api.raw(url);
    session.GetRaw(url);
    ghost var start := session.log;
    found := false;
    var i := 0;
    var exhausted := false;
    while !found && !exhausted
      invariant 0 <= i <= |lines|
      invariant exhausted ==> !found && i == |lines|
      invariant !found ==> forall l :: 0 <= l < i ==> !regex.matchesAtStart(lines[l])
      invariant found ==> i < |lines| && regex.matchesAtStart(lines[i])
      invariant !found ==> session.log + LinesTrace(url, lines, regex, i) == start + LinesTrace(url, lines, regex, 0)
      invariant found ==> session.log == start + LinesTrace(url, lines, regex, 0)
      decreases |lines| - i, if found || exhausted then 0 else 1
    {
      var line := session.NextLine(url, i);
      match line
      case None =>
        exhausted := true;
      case Some(l) =>
        ghost var rest := if regex.matchesAtStart(l) then [] else LinesTrace(url, lines, regex, i + 1);
        assert LinesTrace(url, lines, regex, i) == [LineRead(url, i)] + rest;
        assert session.log + rest == start + LinesTrace(url, lines, regex, 0);
        if regex.matchesAtStart(l) {
          found := true;
        } else {
          i := i + 1;
        }
    }
    assert !found ==> LinesTrace(url, lines, regex, i) == [];
    assert session.log == start + LinesTrace(url, lines, regex, 0);
    assert session.log == old(session.log) + ([FileGet(url)] + LinesTrace(url, lines, regex, 0));
  }

  /** A gist without files never matches, and scanning it makes no request. */
  lemma EmptyGistNeverMatches(gist: Gist, raw: string -> seq<string>, regex: Regex)
    requires gist.files == []
    ensures !GistMatches(gist, raw, regex)
    ensures GistTrace(gist.files, raw, regex) == []
  {
  }

  /** The matcher never requests a listing page. */
  lemma {:induction false} GistTraceRequestsNoPages(files: seq<FileEntry>, raw: string -> seq<string>, regex: Regex)
    ensures PageNumbers(GistTrace(files, raw, regex)) == []
  {
    if files != [] {
      var url := files[0].file.rawUrl;
      var lt := LinesTrace(url, raw(url), regex, 0);
      NoPageGets(lt);
      PageNumbersAppend([FileGet(url)], lt);
      var later := if FileMatches(raw(url), regex) then [] else GistTrace(files[1..], raw, regex);
      PageNumbersAppend(FileTrace(url, raw(url), regex), later);
      GistTraceRequestsNoPages(files[1..], raw, regex);
    }
  }

  /** `_gist_matches(gist, regex)`, with every request it makes recorded in the session's log. */
  method MatchGist(session: Session, gist: Gist, regex: Regex) returns (found: bool)
    modifies session`log
    ensures found == GistMatches(gist, session.api.raw, regex)
    ensures session.log == old(session.log) + GistTrace(gist.files, session.api.raw, regex)
  {
    var raw := session.api.raw;
    var files := gist.files;
    found := false;
    var j := 0;
    while j < |files| && !found
      invariant 0 <= j <= |files|
      invariant !found ==> forall f :: 0 <= f < j ==> !FileMatches(raw(files[f].file.rawUrl), regex)
      invariant !found ==> session.log + GistTrace(files[j..], raw, regex) == old(session.log) + GistTrace(files, raw, regex)
      invariant found ==> GistMatches(gist, raw, regex)
      invariant found ==> session.log == old(session.log) + GistTrace(files, raw, regex)
    {
      ghost var tail := files[j + 1..];
      assert files[j..][1..] == tail;
      var url := files[j].file.rawUrl;
      ghost var fileTrace := FileTrace(url, raw(url), regex);
      ghost var later := if FileMatches(raw(url), regex) then [] else GistTrace(tail, raw, regex);
      assert GistTrace(files[j..], raw, regex) == fileTrace + later;
      ghost var logBefore := session.log;
      found := MatchFile(session, url, regex);
      AppendAssoc(logBefore, fileTrace, later);
      if found {
        assert later == [] && fileTrace + later == fileTrace;
      }
      j := j + 1;
    }
  }
}
