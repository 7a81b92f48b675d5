/**
 * The base name shared by a report's artifact files: the project name with
 * every run of characters outside [a-zA-Z0-9] collapsed to one '-', an
 * optional "-with-children-" marker, the project ID, the report name with
 * spaces turned into underscores, and the time stamp.
 */
module FileNames {

  predicate IsAlnum(c: char) {
    'a' <= c <= 'z' || 'A' <= c <= 'Z' || '0' <= c <= '9'
  }

  // ---------------------------------------------------------------------
  // re.sub(r"[^a-zA-Z0-9]+", '-', name)

  /** `s` without its leading run of characters outside [a-zA-Z0-9]. */
  function SkipRun(s: string): (r: string)
    ensures |r| <= |s| && r == s[|s| - |r|..]
    ensures r == [] || IsAlnum(r[0])
    ensures forall i | 0 <= i < |s| - |r| :: !IsAlnum(s[i])
  {
    if s == [] || IsAlnum(s[0]) then s else SkipRun(s[1..])
  }

  /** Each maximal run of characters outside [a-zA-Z0-9] becomes a single '-'. */
  function Sanitize(s: string): string
    decreases |s|
  {
    if s == [] then []
    else if IsAlnum(s[0]) then [s[0]] + Sanitize(s[1..])
    else "-" + Sanitize(SkipRun(s[1..]))
  }

  /** Only letters, digits and '-', and never two '-' in a row. */
  predicate Clean(s: string) {
    (forall i | 0 <= i < |s| :: IsAlnum(s[i]) || s[i] == '-')
    && (forall i | 0 <= i < |s| - 1 :: IsAlnum(s[i]) || IsAlnum(s[i + 1]))
  }

  /** The letters and digits of `s`, in order. */
  function Alnums(s: string): string {
    if s == [] then [] else (if IsAlnum(s[0]) then [s[0]] else []) + Alnums(s[1..])
  }

  lemma {:induction false} SanitizeStartsAlike(s: string)
    ensures |Sanitize(s)| <= |s|
    ensures s == [] <==> Sanitize(s) == []
    ensures s != [] ==> (IsAlnum(s[0]) <==> IsAlnum(Sanitize(s)[0]))
    decreases |s|
  {
    if s != [] {
      if IsAlnum(s[0]) {
        SanitizeStartsAlike(s[1..]);
      } else {
        SanitizeStartsAlike(SkipRun(s[1..]));
      }
    }
  }

  /** The sanitised name is clean; it is never longer than the name. */
  lemma {:induction false} SanitizeIsClean(s: string)
    ensures Clean(Sanitize(s))
    ensures |Sanitize(s)| <= |s|
    decreases |s|
  {
    SanitizeStartsAlike(s);
    if s != [] {
      if IsAlnum(s[0]) {
        SanitizeIsClean(s[1..]);
      } else {
        var rest := SkipRun(s[1..]);
        SanitizeIsClean(rest);
        SanitizeStartsAlike(rest);
      }
    }
  }

  /** A clean string is left as it is. */
  lemma {:induction false} SanitizeKeepsClean(s: string)
    requires Clean(s)
    ensures Sanitize(s) == s
    decreases |s|
  {
    if s != [] {
      assert Clean(s[1..]);
      SanitizeKeepsClean(s[1..]);
      if !IsAlnum(s[0]) {
        assert SkipRun(s[1..]) == s[1..];
        assert s == "-" + s[1..];
      } else {
        assert s == [s[0]] + s[1..];
      }
    }
  }

  /** Sanitising twice is sanitising once. */
  lemma SanitizeIdempotent(s: string)
    ensures Sanitize(Sanitize(s)) == Sanitize(s)
  {
    SanitizeIsClean(s);
    SanitizeKeepsClean(Sanitize(s));
  }

  lemma {:induction false} AlnumsSkipRun(s: string)
    ensures Alnums(SkipRun(s)) == Alnums(s)
    decreases |s|
  {
    if s != [] && !IsAlnum(s[0]) {
      AlnumsSkipRun(s[1..]);
    }
  }

  /** Every letter and digit of the name survives, in order, and nothing else but '-' is added. */
  lemma {:induction false} SanitizeKeepsAlnums(s: string)
    ensures Alnums(Sanitize(s)) == Alnums(s)
    decreases |s|
  {
    if s != [] {
      if IsAlnum(s[0]) {
        SanitizeKeepsAlnums(s[1..]);
        assert ([s[0]] + Sanitize(s[1..]))[1..] == Sanitize(s[1..]);
      } else {
        var rest := SkipRun(s[1..]);
        SanitizeKeepsAlnums(rest);
        AlnumsSkipRun(s[1..]);
        assert ("-" + Sanitize(rest))[1..] == Sanitize(rest);
      }
    }
  }

  /** A name made of letters and digits only is used unchanged. */
  lemma AlnumNameUnchanged(s: string)
    requires forall i | 0 <= i < |s| :: IsAlnum(s[i])
    ensures Sanitize(s) == s
  {
    SanitizeKeepsClean(s);
  }

  // A reference definition of the substitution: every character outside
  // [a-zA-Z0-9] becomes '-', then each '-' that directly follows a '-' is dropped.

  function Dashify(s: string): string {
    if s == [] then [] else [if IsAlnum(s[0]) then s[0] else '-'] + Dashify(s[1..])
  }

  function Squeeze(s: string): string {
    if |s| <= 1 then s
    else if s[0] == '-' && s[1] == '-' then Squeeze(s[1..])
    else [s[0]] + Squeeze(s[1..])
  }

  lemma SqueezeCons(c: char, s: string)
    requires c != '-'
    ensures Squeeze([c] + s) == [c] + Squeeze(s)
  {
    assert ([c] + s)[1..] == s;
  }

  /** After a '-', the run of characters outside [a-zA-Z0-9] that follows collapses into it. */
  lemma {:induction false} SqueezeAfterDash(u: string)
    ensures Squeeze("-" + Dashify(u)) == "-" + Squeeze(Dashify(SkipRun(u)))
    decreases |u|
  {
    var d := Dashify(u);
    assert ("-" + d)[1..] == d;
    if u == [] {
    } else if IsAlnum(u[0]) {
      assert d[0] == u[0];
    } else {
      assert d == "-" + Dashify(u[1..]);
      SqueezeAfterDash(u[1..]);
    }
  }

  /** `Sanitize` turns each maximal run of characters outside [a-zA-Z0-9] into exactly one '-', in place. */
  lemma {:induction false} SanitizeIsSqueezedDashify(s: string)
    ensures Sanitize(s) == Squeeze(Dashify(s))
    decreases |s|
  {
    if s != [] {
      if IsAlnum(s[0]) {
        SanitizeIsSqueezedDashify(s[1..]);
        SqueezeCons(s[0], Dashify(s[1..]));
      } else {
        SanitizeIsSqueezedDashify(SkipRun(s[1..]));
        SqueezeAfterDash(s[1..]);
      }
    }
  }

  // ---------------------------------------------------------------------
  // reportName.replace(" ", "_")

  function ReplaceSpaces(s: string): string {
    seq(|s|, i requires 0 <= i < |s| => if s[i] == ' ' then '_' else s[i])
  }

  /** Every space becomes '_', every other character is kept, and a name without spaces is kept whole. */
  lemma ReplaceSpacesResult(s: string)
    ensures |ReplaceSpaces(s)| == |s| && ' ' !in ReplaceSpaces(s)
    ensures forall i | 0 <= i < |s| && s[i] != ' ' :: ReplaceSpaces(s)[i] == s[i]
    ensures forall i | 0 <= i < |s| && s[i] == ' ' :: ReplaceSpaces(s)[i] == '_'
    ensures ' ' !in s ==> ReplaceSpaces(s) == s
  {
  }

  // ---------------------------------------------------------------------
  // The two file-name bases.

  const ChildrenMarker := "-with-children-"
  const CreationErrorMarker := "-Creation_Error-"

  /**
   * The base of a report's file names. `projectCount` is the length of the
   * project list; a single entry means no child project is listed.
   */
  function ReportFileNameBase(projectName: string, projectID: string, reportName: string,
                              projectCount: nat, fileNameTimeStamp: string): string
  {
    Sanitize(projectName) + MarkerFor(projectCount)
    + projectID + "-" + ReplaceSpaces(reportName) + "-" + fileNameTimeStamp
  }

  /** What follows the sanitised project name: a plain '-' for a lone project. */
  function MarkerFor(projectCount: nat): string {
    if projectCount == 1 then "-" else ChildrenMarker
  }

  /** The base of the file names of an error report. */
  function ErrorFileNameBase(reportName: string, fileNameTimeStamp: string): string {
    ReplaceSpaces(reportName) + CreationErrorMarker + fileNameTimeStamp
  }

  /** The error base is the report name with underscores, the error marker, and the time stamp. */
  lemma ErrorFileNameBaseShape(reportName: string, fileNameTimeStamp: string)
    ensures var r := ErrorFileNameBase(reportName, fileNameTimeStamp);
      var n := |reportName|;
      |r| == n + |CreationErrorMarker| + |fileNameTimeStamp|
      && r[..n] == ReplaceSpaces(reportName) && ' ' !in r[..n]
      && r[n..n + |CreationErrorMarker|] == CreationErrorMarker
      && r[n + |CreationErrorMarker|..] == fileNameTimeStamp
  {
    var r := ErrorFileNameBase(reportName, fileNameTimeStamp);
    assert r[..|reportName|] == ReplaceSpaces(reportName);
  }

  predicate IsDigit(c: char) {
    '0' <= c <= '9'
  }

  lemma Regroup<T>(a: seq<T>, b: seq<T>, c: seq<T>, d: seq<T>, e: seq<T>, f: seq<T>, g: seq<T>)
    ensures a + b + c + d + e + f + g == a + (b + c) + (d + e + f + g)
  {
  }

  /** Both forms start with the sanitised project name and end with '-', the report name with underscores, '-', and the time stamp. */
  lemma ReportFileNameBaseEnds(projectName: string, projectID: string, reportName: string,
                               projectCount: nat, fileNameTimeStamp: string)
    ensures var r := ReportFileNameBase(projectName, projectID, reportName, projectCount, fileNameTimeStamp);
      var head := Sanitize(projectName);
      var tail := "-" + ReplaceSpaces(reportName) + "-" + fileNameTimeStamp;
      |head| + |tail| <= |r| && r[..|head|] == head && r[|r| - |tail|..] == tail
  {
    Regroup(Sanitize(projectName), MarkerFor(projectCount), projectID, "-", ReplaceSpaces(reportName), "-", fileNameTimeStamp);
  }

  lemma RegroupAfterSecond<T>(a: seq<T>, b: seq<T>, c: seq<T>, d: seq<T>, e: seq<T>, f: seq<T>, g: seq<T>)
    ensures a + b + c + d + e + f + g == a + b + (c + d + e + f + g)
  {
  }

  /** The marker, with a name before it and text starting with a digit after it, shows whether more than one project is listed. */
  lemma MarkerShowsCount(head: string, rest: string, projectCount: nat)
    requires rest != [] && IsDigit(rest[0])
    ensures var r := head + MarkerFor(projectCount) + rest;
      var n := |head|;
      projectCount != 1 <==> n + |ChildrenMarker| <= |r| && r[n..n + |ChildrenMarker|] == ChildrenMarker
  {
    var r := head + MarkerFor(projectCount) + rest;
    if projectCount == 1 {
      if |head| + |ChildrenMarker| <= |r| {
        assert r[|head| + 1] == rest[0];
        assert ChildrenMarker[1] == 'w';
      }
    } else {
      assert r[|head|..|head| + |ChildrenMarker|] == ChildrenMarker;
    }
  }

  /**
   * When the project ID starts with a digit, the marker follows the sanitised
   * name exactly when more than one project is listed.
   */
  lemma ChildrenMarkerIff(projectName: string, projectID: string, reportName: string,
                          projectCount: nat, fileNameTimeStamp: string)
    requires projectID != [] && IsDigit(projectID[0])
    ensures var r := ReportFileNameBase(projectName, projectID, reportName, projectCount, fileNameTimeStamp);
      var n := |Sanitize(projectName)|;
      projectCount != 1 <==> n + |ChildrenMarker| <= |r| && r[n..n + |ChildrenMarker|] == ChildrenMarker
  {
    var head := Sanitize(projectName);
    var rest := projectID + "-" + ReplaceSpaces(reportName) + "-" + fileNameTimeStamp;
    RegroupAfterSecond(head, MarkerFor(projectCount), projectID, "-", ReplaceSpaces(reportName), "-", fileNameTimeStamp);
    assert rest[0] == projectID[0];
    MarkerShowsCount(head, rest, projectCount);
  }
}
