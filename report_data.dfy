/**
 * The project list of the report: the root project first, then, when child
 * projects are included, a pre-order walk of the project tree in which the
 * children of every project are visited in ascending order of name.
 */
module ReportData {
  import opened Wrappers
  import opened ProjectTree

  // ---------------------------------------------------------------------
  // Python's str() on the values that reach it.

  function DigitChar(d: nat): char
    requires d < 10
  {
    "0123456789"[d]
  }

  function NatToString(n: nat): (r: string)
    decreases n
  {
    if n < 10 then [DigitChar(n)] else NatToString(n / 10) + [DigitChar(n % 10)]
  }

  /** The rendering of a natural number is a non-empty string of decimal digits. */
  lemma {:induction false} NatToStringIsDecimal(n: nat)
    ensures |NatToString(n)| > 0
    ensures forall i | 0 <= i < |NatToString(n)| :: '0' <= NatToString(n)[i] <= '9'
    decreases n
  {
    if n >= 10 {
      NatToStringIsDecimal(n / 10);
    }
  }

  /** `str(n)` for a Python int: decimal digits, with a leading '-' when negative. */
  function IntToString(n: int): string {
    if n < 0 then "-" + NatToString(-n) else NatToString(n)
  }

  /** What a node's "parent" entry holds: "#" for the root, the root's int ID for its children, a uniqueID below. */
  datatype ParentRef = RootMarker | ProjectId(id: int) | UniqueId(path: string)

  /** `str(parentID)`. */
  function ParentText(p: ParentRef): string {
    match p
    case RootMarker => "#"
    case ProjectId(id) => IntToString(id)
    case UniqueId(path) => path
  }

  /** One entry of the project list; the root has no "uniqueID" key. */
  datatype ProjectNode = ProjectNode(
    projectID: int,
    parent: ParentRef,
    uniqueID: Option<string>,
    projectName: string,
    projectLink: string)

  const ProjectPath := "/codeinsight/FNCI#myprojectdetails/?id="
  const InventoryTab := "&tab=projectInventory"

  /** The link to a project's inventory tab on the server. */
  function ProjectLink(baseURL: string, id: int): string {
    baseURL + ProjectPath + IntToString(id) + InventoryTab
  }

  function RootNode(root: Tree, baseURL: string): ProjectNode {
    ProjectNode(root.id, RootMarker, None, root.name, ProjectLink(baseURL, root.id))
  }

  /** `str(parentID) + "-" + str(childProject["id"])`. */
  function ChildUniqueID(parent: ParentRef, child: Tree): string {
    ParentText(parent) + "-" + IntToString(child.id)
  }

  function ChildNode(child: Tree, parent: ParentRef, baseURL: string): ProjectNode {
    ProjectNode(child.id, parent, Some(ChildUniqueID(parent, child)), child.name, ProjectLink(baseURL, child.id))
  }

  // ---------------------------------------------------------------------
  // The specification of the walk.

  /** The entries the walk appends below `t`, whose own entry carries the parent reference `parent`. */
  function Descendants(t: Tree, parent: ParentRef, baseURL: string): seq<ProjectNode>
    decreases t, |t.children| + 1
  {
    ChildrenBlocks(t, SortByName(t.children), parent, baseURL)
  }

  /** The entries appended for the children `cs` of `t`, each followed by its own descendants. */
  function ChildrenBlocks(t: Tree, cs: seq<Tree>, parent: ParentRef, baseURL: string): seq<ProjectNode>
    requires forall c | c in cs :: c in t.children
    decreases t, |cs|
  {
    if cs == [] then []
    else
      assert cs[|cs| - 1] in t.children;
      ChildrenBlocks(t, cs[..|cs| - 1], parent, baseURL) + Block(cs[|cs| - 1], parent, baseURL)
  }

  /** The entries for one child: its own entry, then everything below it. */
  function Block(c: Tree, parent: ParentRef, baseURL: string): seq<ProjectNode>
    decreases c, |c.children| + 2
  {
    [ChildNode(c, parent, baseURL)] + Descendants(c, UniqueId(ChildUniqueID(parent, c)), baseURL)
  }

  /** One pass of the loop over the sorted children adds that child's block. */
  lemma ChildrenBlocksStep(t: Tree, cs: seq<Tree>, i: nat, parent: ParentRef, baseURL: string)
    requires i < |cs|
    requires forall c | c in cs :: c in t.children
    ensures ChildrenBlocks(t, cs[..i + 1], parent, baseURL) == ChildrenBlocks(t, cs[..i], parent, baseURL) + Block(cs[i], parent, baseURL)
  {
    assert cs[..i + 1][..i] == cs[..i];
  }

  /** The loop's step, stated after the entries already in the list. */
  lemma ChildrenBlocksExtend(before: seq<ProjectNode>, t: Tree, cs: seq<Tree>, i: nat, parent: ParentRef, baseURL: string)
    requires i < |cs|
    requires forall c | c in cs :: c in t.children
    ensures before + ChildrenBlocks(t, cs[..i + 1], parent, baseURL)
         == before + ChildrenBlocks(t, cs[..i], parent, baseURL) + Block(cs[i], parent, baseURL)
  {
    ChildrenBlocksStep(t, cs, i, parent, baseURL);
  }

  /** The whole project list that `gather_data_for_report` builds. */
  function ProjectListFor(root: Tree, includeChildProjects: bool, baseURL: string): seq<ProjectNode> {
    [RootNode(root, baseURL)] + (if includeChildProjects then Descendants(root, ProjectId(root.id), baseURL) else [])
  }

  // ---------------------------------------------------------------------
  // The list that is appended to in place.

  /** A Python list of project entries, shared by reference between the walk's recursive calls. */
  class ProjectList {
    var nodes: seq<ProjectNode>

    constructor ()
      ensures nodes == []
    {
      nodes := [];
    }

    method Append(node: ProjectNode)
      modifies this
      ensures nodes == old(nodes) + [node]
    {
      nodes := nodes + [node];
    }
  }

  /**
   * Appends, after what `projectList` already holds, the entries for every
   * project below `project`, children in ascending order of name; returns the
   * same list.
   */
  method CreateProjectHierarchy(project: Tree, parentID: ParentRef, projectList: ProjectList, baseURL: string)
    returns (r: ProjectList)
    modifies projectList
    ensures r == projectList
    ensures projectList.nodes == old(projectList.nodes) + Descendants(project, parentID, baseURL)
    decreases project, 1
  {
    ghost var before := projectList.nodes;
    if |project.children| > 0 {
      var sorted := SortByName(project.children);
      for i := 0 to |sorted|
        invariant projectList.nodes == before + ChildrenBlocks(project, sorted[..i], parentID, baseURL)
      {
        assert sorted[i] in sorted;
        AppendChildProject(project, sorted[i], parentID, projectList, baseURL);
        ChildrenBlocksExtend(before, project, sorted, i, parentID, baseURL);
      }
      assert sorted[..|sorted|] == sorted;
    } else {
      assert SortByName(project.children) == [];
    }
    r := projectList;
  }

  /**
   * One pass of the loop over the sorted children: appends the child's entry,
   * whose uniqueID extends `parentID` by the child's ID, then everything below it.
   */
  method AppendChildProject(project: Tree, childProject: Tree, parentID: ParentRef, projectList: ProjectList, baseURL: string)
    requires childProject in project.children
    modifies projectList
    ensures projectList.nodes == old(projectList.nodes) + Block(childProject, parentID, baseURL)
    decreases project, 0
  {
    var uniqueProjectID := ParentText(parentID) + "-" + IntToString(childProject.id);
    var nodeDetails := ProjectNode(childProject.id, parentID, Some(uniqueProjectID), childProject.name,
                                   ProjectLink(baseURL, childProject.id));
    projectList.Append(nodeDetails);
    var _ := CreateProjectHierarchy(childProject, UniqueId(uniqueProjectID), projectList, baseURL);
  }

  /** What `gather_data_for_report` hands on; the tree is the server's answer. */
  datatype Report = Report(
    reportName: string,
    projectList: seq<ProjectNode>,
    projectHierarchy: Tree,
    projectName: string)

  /**
   * Builds the report data: the root's entry, then, when child projects are
   * included, the walk below the root. The tree is the server's answer for
   * the project, and `includeChildProjects` the validated option.
   */
  method GatherDataForReport(baseURL: string, reportName: string, includeChildProjects: bool, projectHierarchy: Tree)
    returns (reportData: Report)
    ensures reportData.projectList == ProjectListFor(projectHierarchy, includeChildProjects, baseURL)
    ensures reportData.reportName == reportName
    ensures reportData.projectHierarchy == projectHierarchy
    ensures reportData.projectName == projectHierarchy.name
  {
    var projectList := new ProjectList();
    var nodeDetails := ProjectNode(projectHierarchy.id, RootMarker, None, projectHierarchy.name,
                                   ProjectLink(baseURL, projectHierarchy.id));
    projectList.Append(nodeDetails);
    if includeChildProjects {
      projectList := CreateProjectHierarchy(projectHierarchy, ProjectId(projectHierarchy.id), projectList, baseURL);
    }
    reportData := Report(reportName, projectList.nodes, projectHierarchy, projectHierarchy.name);
  }
}
