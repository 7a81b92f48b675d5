/**
 * The report driver: validate the options, then either describe an error
 * report or gather the report data and name its artifacts.
 */
module CreateReport {
  import opened Wrappers
  import opened ProjectTree
  import opened ReportData
  import opened HierarchyProperties
  import opened ReportOptions
  import opened FileNames

  const ReportName := "Project Inventory License Audit Report"

  /** What the driver hands to the artifact writers. */
  datatype Outcome =
    | ErrorReport(errorMsg: seq<string>, reportName: string, reportFileNameBase: string)
    | ReportArtifacts(reportData: Report, fileNameTimeStamp: string, reportFileNameBase: string)

  /**
   * Validates the options; with an error, describes the error report and
   * gathers nothing; otherwise gathers the data for the project tree and names
   * the artifacts after the project, marking them when children are listed.
   */
  method CreateReport(baseURL: string, projectID: string, reportOptions: map<string, OptionValue>,
                      projectHierarchy: Tree, fileNameTimeStamp: string)
    returns (outcome: Outcome)
    requires IncludeKey in reportOptions && reportOptions[IncludeKey].Text?
    ensures outcome.ErrorReport? <==> !IsFlagWord(reportOptions[IncludeKey].s)
    ensures outcome.ErrorReport? ==>
      outcome == ErrorReport([InvalidIncludeMessage(reportOptions[IncludeKey].s)], ReportName,
                             ErrorFileNameBase(ReportName, fileNameTimeStamp))
    ensures outcome.ReportArtifacts? ==>
      var includeChildProjects := Lower(reportOptions[IncludeKey].s) in TrueOptions;
      var projectList := ProjectListFor(projectHierarchy, includeChildProjects, baseURL);
      outcome.reportData == Report(ReportName, projectList, projectHierarchy, projectHierarchy.name)
      && outcome.fileNameTimeStamp == fileNameTimeStamp
      && outcome.reportFileNameBase
         == ReportFileNameBase(projectHierarchy.name, projectID, ReportName, |projectList|, fileNameTimeStamp)
  {
    var options := VerifyOptions(reportOptions);
    if ErrorKey in options {
      var reportFileNameBase := ErrorFileNameBase(ReportName, fileNameTimeStamp);
      outcome := ErrorReport(options[ErrorKey].msgs, ReportName, reportFileNameBase);
    } else {
      var reportData := GatherDataForReport(baseURL, ReportName, options[IncludeKey].b, projectHierarchy);
      var reportFileNameBase := ReportFileNameBase(reportData.projectName, projectID, ReportName,
                                                   |reportData.projectList|, fileNameTimeStamp);
      outcome := ReportArtifacts(reportData, fileNameTimeStamp, reportFileNameBase);
    }
  }

  /** A project listed alone: children left out, or a project without children. */
  lemma ListedAlone(root: Tree, includeChildProjects: bool, baseURL: string)
    ensures |ProjectListFor(root, includeChildProjects, baseURL)| == 1
            <==> !includeChildProjects || root.children == []
  {
    ProjectListLength(root, includeChildProjects, baseURL);
    if root.children != [] {
      assert Size(root) >= 1 + Size(root.children[0]);
    }
  }

  /**
   * For a numeric project ID, the artifact names carry "-with-children-" right
   * after the project name exactly when child projects are included and the
   * project has at least one.
   */
  lemma ChildrenMarkerMeansChildren(root: Tree, includeChildProjects: bool, baseURL: string,
                                    projectID: string, fileNameTimeStamp: string)
    requires projectID != [] && IsDigit(projectID[0])
    ensures var count := |ProjectListFor(root, includeChildProjects, baseURL)|;
      var r := ReportFileNameBase(root.name, projectID, ReportName, count, fileNameTimeStamp);
      var n := |Sanitize(root.name)|;
      (includeChildProjects && root.children != [])
      <==> n + |ChildrenMarker| <= |r| && r[n..n + |ChildrenMarker|] == ChildrenMarker
  {
    var count := |ProjectListFor(root, includeChildProjects, baseURL)|;
    ListedAlone(root, includeChildProjects, baseURL);
    ChildrenMarkerIff(root.name, projectID, ReportName, count, fileNameTimeStamp);
  }

  // ---------------------------------------------------------------------
  // The call at create_report.py:117 as written.

  /** gather_data_for_report declares five parameters. */
  const GatherDataParameterCount := 5
  /** The driver passes it six arguments: the five, then the audit field. */
  const GatherDataArgumentCount := 6

  /** What Python raises when a call passes more positional arguments than the function declares. */
  const TooManyArguments := "TypeError: gather_data_for_report() takes 5 positional arguments but 6 were given"

  /**
   * The driver as written: every option value that passes validation reaches
   * the six-argument call and fails there, so no report is ever produced.
   */
  method CreateReportAsWritten(baseURL: string, projectID: string, reportOptions: map<string, OptionValue>,
                               projectHierarchy: Tree, fileNameTimeStamp: string)
    returns (result: Result<Outcome>)
    requires IncludeKey in reportOptions && reportOptions[IncludeKey].Text?
    ensures result.Failure? <==> IsFlagWord(reportOptions[IncludeKey].s)
    ensures result.Failure? ==> result.error == TooManyArguments
    ensures result.Success? ==>
      result.value == ErrorReport([InvalidIncludeMessage(reportOptions[IncludeKey].s)], ReportName,
                                  ErrorFileNameBase(ReportName, fileNameTimeStamp))
  {
    var options := VerifyOptions(reportOptions);
    if ErrorKey in options {
      var reportFileNameBase := ErrorFileNameBase(ReportName, fileNameTimeStamp);
      result := Success(ErrorReport(options[ErrorKey].msgs, ReportName, reportFileNameBase));
    } else {
      // GatherDataArgumentCount > GatherDataParameterCount: the call cannot bind.
      result := Failure(TooManyArguments);
    }
  }

  /** The documented setting "True" passes validation, so the call as written raises. */
  lemma AsWrittenFailsOnValidOptions()
    ensures IsFlagWord("True")
    ensures GatherDataArgumentCount != GatherDataParameterCount
  {
    assert Lower("True") == "true";
  }
}
