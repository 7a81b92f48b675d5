# Project inventory license audit report: a verified model of its core

This project models, in Dafny, the logic at the heart of the Code Insight
"Project Inventory License Audit" report generator:

- **The project list** (`report_data.py`). The root project's entry comes first,
  with parent `"#"` and no `uniqueID`. When child projects are included, a
  pre-order walk of the project tree follows. The children of every project are
  visited in ascending order of name. Each child entry carries its parent
  reference and a `uniqueID` made of that reference, `-`, and its own ID. The
  walk appends in place to one list that all recursive calls share. The model
  therefore keeps that list as a class (`ProjectList`) whose methods append to
  it.
- **Option validation and artifact names** (`create_report.py`).
  - `verifyOptions` turns the `includeChildProjects` string into a boolean
    using two fixed word lists, compared without regard to case. Anything else
    is recorded under `errorMsg`, and that key exists only when there is an
    error.
  - The driver chooses the error report or the normal report.
  - It builds the file-name base. Every run of characters outside
    `[a-zA-Z0-9]` in the project name becomes one `-`. A `-with-children-`
    marker is added when more than one project is listed.
- **The restricted-license registry** (`restricted_licenses.py`): a constant
  table of twelve AGPL and GPL family license IDs and their display names.

Modules:

- `Wrappers`: Option and Result.
- `ProjectTree`: the project tree, Python's string order, and the stable sort
  by name.
- `ReportData`: project entries, the specification of the walk, and the
  imperative walk itself.
- `HierarchyProperties`: what the flattened list promises.
- `ReportOptions`: `verifyOptions`.
- `FileNames`: `re.sub` sanitising and the file-name bases.
- `CreateReport`: the driver's branch.
- `RestrictedLicenses`: the registry.

Within that core, `verifyOptions` handles only `includeChildProjects`, and
`gather_data_for_report` builds only the project list, the hierarchy and the
names.

## Model

| member | source | states |
|---|---|---|
| ProjectTree.StrLeReflexive | report_data.py:69 | Python's `<=` on strings (lexicographic by code point) holds between a string and itself |
| ProjectTree.StrLeTotal | report_data.py:69 | any two names are comparable |
| ProjectTree.StrLeTransitive | report_data.py:69 | the name order is transitive |
| ProjectTree.StrLeAntisymmetric | report_data.py:69 | names ordered both ways are equal |
| ProjectTree.InsertByName | report_data.py:69 | inserting a child adds exactly one element, and every element is the new child or an old one |
| ProjectTree.InsertByNamePermutes | report_data.py:69 | insertion adds exactly the new child to the multiset of children |
| ProjectTree.InsertByNameSorted | report_data.py:69 | insertion into a name-sorted sequence keeps it sorted |
| ProjectTree.InsertByNameStable | report_data.py:69 | insertion keeps the relative order of children with equal names, the new child first |
| ProjectTree.SortByName | report_data.py:69 | `sorted(children, key=name)` has as many elements as the children, each one of the children |
| ProjectTree.SortByNamePermutes | report_data.py:69 | the sorted children are a permutation of the children |
| ProjectTree.SortByNameMembers | report_data.py:69 | a tree is among the sorted children exactly when it is among the children |
| ProjectTree.SortByNameSorted | report_data.py:69 | the sorted children are in ascending order of name |
| ProjectTree.SortByNameStable | report_data.py:69 | children with the same name keep their server order (Python's sort is stable) |
| ProjectTree.SortedStableDetermined | report_data.py:69 | two name-sorted sequences holding the same children of every name, in the same order, are equal |
| ProjectTree.SortByNameIsStableSort | report_data.py:69 | the sort is a sorted, stable permutation, and the only sequence with those properties |
| ProjectTree.InsertByNameSize | report_data.py:69 | insertion adds the inserted subtree's projects to the count |
| ProjectTree.SortByNameSize | report_data.py:69 | sorting the children keeps the number of projects below them |
| ProjectTree.SortByNameIds | report_data.py:69 | sorting the children keeps the IDs of every project below them, with multiplicity |
| ReportData.NatToStringIsDecimal | report_data.py:71 | `str` of a non-negative ID is a non-empty string of decimal digits |
| ReportData.ChildrenBlocksStep | report_data.py:69-81 | one pass of the loop over the sorted children adds that child's entry followed by its subtree's entries |
| ReportData.ProjectList.constructor | report_data.py:27 | a new project list is empty |
| ReportData.ProjectList.Append | report_data.py:79 | `append` adds exactly one entry at the end and changes nothing else |
| ReportData.CreateProjectHierarchy | report_data.py:61-83 | the list ends up as its old contents followed by the pre-order entries of every project below `project` (so it only appends, and a leaf leaves it unchanged); the same list is returned |
| ReportData.AppendChildProject | report_data.py:71-81 | one loop pass appends the child's entry (parent reference, `uniqueID` built from it, name, link) and then everything below the child |
| ReportData.GatherDataForReport | report_data.py:21-57 | the report data holds the report name, the root's entry followed by the walk when child projects are included, the tree, and the root's name |
| HierarchyProperties.DescendantsCount | report_data.py:66-81 | the walk has one entry per project below the root: the subtree's size minus its root |
| HierarchyProperties.ChildrenBlocksCount | report_data.py:69-81 | the entries for a run of children number the projects in their subtrees |
| HierarchyProperties.ProjectListLength | report_data.py:44-47 | the list has one entry per project of the tree when child projects are included, and exactly one otherwise |
| HierarchyProperties.DescendantsIds | report_data.py:61-83 | the walk below a project lists exactly the IDs of the projects below it, each as often as the tree holds it: nothing is listed twice that the tree holds once, and nothing is dropped |
| HierarchyProperties.ChildrenBlocksIds | report_data.py:69-81 | the entries for a run of children list exactly the IDs of those children and every project below them |
| HierarchyProperties.BlockIds | report_data.py:73-81 | one child's entry and the walk below it list exactly the IDs of the child and every project below it |
| HierarchyProperties.ProjectListIds | report_data.py:36-47 | the project list lists the root's ID once when child projects are left out, and otherwise exactly the IDs of every project of the tree |
| HierarchyProperties.RootEntryFirst | report_data.py:36-47 | the first entry is the root's: parent `"#"`, the root's ID and name, no `uniqueID`; without child projects it is the only entry |
| HierarchyProperties.ChildrenBlocksPrefix | report_data.py:79-81 | the entries for the first m sorted children are a prefix of the entries for all of them |
| HierarchyProperties.BlocksOpenDescendants | report_data.py:69-81 | the blocks of the first i children followed by the i-th child's block open the walk below a project |
| HierarchyProperties.BlockAt | report_data.py:69-81 | pre-order: the i-th child in name order sits at the offset given by the projects of the children before it, and its entry is followed at once by all of its own descendants' entries |
| HierarchyProperties.DescendantsLabelled | report_data.py:71-77 | every entry below the root has `uniqueID == str(parent) + "-" + str(projectID)` and the inventory link of its own ID |
| HierarchyProperties.ChildrenBlocksLabelled | report_data.py:71-77 | the same for the entries of a run of children |
| HierarchyProperties.ProjectListLabelled | report_data.py:36-77 | every entry of the whole list links to `baseURL + "/codeinsight/FNCI#myprojectdetails/?id=" + str(id) + "&tab=projectInventory"`, and every entry after the root's is labelled as above |
| HierarchyProperties.BlockLinked | report_data.py:71-81 | in a child's block every entry hangs off the child's parent reference or off an entry listed before it |
| HierarchyProperties.DescendantsLinked | report_data.py:61-83 | every entry of the walk names as parent either the walk's parent reference or the `uniqueID` of an earlier entry |
| HierarchyProperties.ChildrenBlocksLinked | report_data.py:69-81 | the same for the entries of a run of children |
| HierarchyProperties.ParentsComeFirst | report_data.py:36-83 | every entry after the root's names as parent the root's ID or the `uniqueID` of an entry listed before it: parents precede their children |
| HierarchyProperties.DescendantsDeeper | report_data.py:71-81 | every entry below a parent reference hangs off that reference or off a strictly longer `uniqueID` |
| HierarchyProperties.ChildrenBlocksDeeper | report_data.py:71-81 | the same for the entries of a run of children |
| HierarchyProperties.BelowChildNotSibling | report_data.py:71-81 | no entry strictly below a child hangs off that child's own parent reference |
| HierarchyProperties.ChildrenBlocksSiblings | report_data.py:69-81 | the entries hanging off the parent are exactly the children's own entries, in loop order |
| HierarchyProperties.ChildEntriesAt | report_data.py:73-77 | the i-th child entry is the entry built for the i-th child |
| HierarchyProperties.SiblingsInNameOrder | report_data.py:69-79 | the entries hanging directly off a project are exactly its children, in the stable-sorted order, so their names ascend |
| ReportOptions.VerdictIgnoresCase | create_report.py:153-155 | two spellings that differ only in letter case get the same verdict |
| ReportOptions.WordListsDisjoint | create_report.py:148-149 | no spelling is both a true word and a false word |
| ReportOptions.MixedCaseAccepted | create_report.py:153-156 | "TRUE" and "Yes" are read as true, "False" and "N" as false |
| ReportOptions.OtherSpellingsRejected | create_report.py:157-158 | "maybe", "1" and the empty string are rejected |
| ReportOptions.InvalidIncludeMessage | create_report.py:158 | the error message quotes the rejected value as given, at a fixed position |
| ReportOptions.VerifyOptions | create_report.py:142-164 | `includeChildProjects` becomes True exactly when the lower-cased value is one of "true", "t", "yes", "y", and False exactly when it is one of "false", "f", "no", "n"; otherwise it keeps its value and `errorMsg` holds one message quoting it; `errorMsg` is present exactly when there is an error; no other key changes and none is added |
| FileNames.SkipRun | create_report.py:120 | skipping a run of characters outside `[a-zA-Z0-9]` leaves a suffix that starts with a letter or digit, or is empty, and drops only such characters |
| FileNames.SanitizeStartsAlike | create_report.py:120 | the sanitised name is no longer than the name, empty only for an empty name, and starts with a letter or digit exactly when the name does |
| FileNames.SanitizeIsClean | create_report.py:120 | the sanitised name holds only letters, digits and `-`, and never two `-` in a row |
| FileNames.SanitizeKeepsClean | create_report.py:120 | such a clean name is left unchanged |
| FileNames.SanitizeIdempotent | create_report.py:120 | sanitising twice is sanitising once |
| FileNames.AlnumsSkipRun | create_report.py:120 | skipping a run loses no letter or digit |
| FileNames.SanitizeKeepsAlnums | create_report.py:120 | every letter and digit of the name survives, in order |
| FileNames.AlnumNameUnchanged | create_report.py:120 | a name of letters and digits only is used as it is |
| FileNames.SanitizeIsSqueezedDashify | create_report.py:120 | sanitising equals an independent two-step definition: every character outside `[a-zA-Z0-9]` becomes `-`, then each `-` directly after a `-` is dropped; so each maximal run becomes exactly one `-` in its place |
| FileNames.ReplaceSpacesResult | create_report.py:124 | `replace(" ", "_")` keeps the length, turns every space into `_`, and keeps every other character |
| FileNames.ErrorFileNameBaseShape | create_report.py:106 | the error base is the report name with every space turned into `_`, then `-Creation_Error-`, then the time stamp |
| FileNames.ReportFileNameBaseEnds | create_report.py:123-126 | both forms of the base start with the sanitised project name and end with `-`, the report name with underscores, `-`, and the time stamp |
| FileNames.MarkerShowsCount | create_report.py:123-126 | with text starting with a digit after it, `-with-children-` follows the name exactly when the count is not one |
| FileNames.ChildrenMarkerIff | create_report.py:123-126 | for a project ID starting with a digit, `-with-children-` follows the sanitised name exactly when the project list does not have exactly one entry |
| CreateReport.CreateReport | create_report.py:104-126 | invalid options give the error report, carrying the validation message and the error base, and nothing is gathered; valid ones give the gathered report data, with the walk exactly when the option reads true, and the base named after the project and the list length |
| CreateReport.ListedAlone | create_report.py:123 | the list has exactly one entry exactly when child projects are left out or the project has none |
| CreateReport.ChildrenMarkerMeansChildren | create_report.py:123-126 | for a numeric project ID, the artifact names carry `-with-children-` exactly when child projects are included and the project has at least one |
| CreateReport.CreateReportAsWritten | create_report.py:104-117 | as written, every option value that passes validation fails at the six-argument call with a TypeError, so the only report ever produced is the error report with the validation message |
| CreateReport.AsWrittenFailsOnValidOptions | create_report.py:117 | the documented value "True" passes validation, and the call passes six arguments where five are declared |
| RestrictedLicenses.RegistryKeys | restricted_licenses.py:14-28 | the registry's keys are exactly the six AGPL-family IDs and the six GPL-family IDs |
| RestrictedLicenses.FamilySizes | restricted_licenses.py:16-28 | each family has six distinct IDs |
| RestrictedLicenses.FamiliesDisjoint | restricted_licenses.py:16-28 | no ID is in both families |
| RestrictedLicenses.RegistrySize | restricted_licenses.py:14-28 | the registry has exactly twelve keys |
| RestrictedLicenses.KeysAreDecimal | restricted_licenses.py:16-28 | every key is a non-empty string of decimal digits |
| RestrictedLicenses.OnlyListedIdsAreRestricted | restricted_licenses.py:14-28 | an ID outside the two families is not a member |
| RestrictedLicenses.SpdxSuffix | restricted_licenses.py:16-28 | every display name ends with its SPDX identifier in parentheses |
| RestrictedLicenses.SampleEntries | restricted_licenses.py:25-27 | "331" ends in "(GPL-2.0-only)", "1097" ends in "(GPL-3.0-only)", and "100" is not a member |
| RestrictedLicenses.NameShape | restricted_licenses.py:16-28 | a display name contains "General Public License" and ends with a parenthesised identifier |
| RestrictedLicenses.AgplNamesWellFormed | restricted_licenses.py:16-21 | every AGPL-family display name contains "General Public License" and ends with a parenthesised identifier |
| RestrictedLicenses.GplNamesWellFormed | restricted_licenses.py:23-28 | every GPL-family display name contains "General Public License" and ends with a parenthesised identifier |
| RestrictedLicenses.DisplayNamesWellFormed | restricted_licenses.py:16-28 | every registered display name contains "General Public License" and ends with a parenthesised identifier |

## Left out

- The REST query for the project tree (report_data.py:32) is a network call. The tree is an input to `GatherDataForReport` and `CreateReport`.
- The `projectID` and `authToken` parameters of `gather_data_for_report` serve only that query and are not modelled.
- `gather_data_for_report` reads the validated `includeChildProjects` option, and the model passes it as a bool. The truthiness of any other value is not modelled, because validation never leaves one there.
- The driver's configuration plumbing is not modelled: the properties file, certificate environment variables, argparse, Linux quote stripping, `json.loads` of the options, logging, printing, and the Python version check.
- The time stamp is an input string. `datetime.now()`, the `reportTimeStamp` reformatting (create_report.py:111, 129) and the `fileNameTimeStamp` format are clock and locale work.
- The artifact writers are not modelled: the `report_errors` and `report_artifacts` modules, and report_artifacts_html.py (HTML templating, file copying, image encoding). `CreateReport` returns what it would hand them.
- The check at create_report.py:133 is not modelled. `gather_data_for_report` never sets `errorMsg`, so the normal branch always hands over report artifacts.
- ReportOptions.Lower: lower-cases ASCII letters only. Python's full Unicode `lower()` is not modelled. No other character lower-cases into the letters of the eight accepted words, so the verdict is the same.
- FileNames.Sanitize: `re.sub` is modelled directly over `[a-zA-Z0-9]`, not through a regular-expression engine.
- ReportOptions.VerifyOptions: requires that `includeChildProjects` is present and is a string. The source raises KeyError or AttributeError otherwise.
- ReportOptions.VerifyOptions: the options dictionary is a `map`, so key order is not modelled. The method returns the updated map instead of mutating it, because the only caller rebinds its variable to the result.
- Python integers are unbounded, and so are the model's.
- ReportData.CreateProjectHierarchy: recursion depth is unbounded. CPython raises RecursionError on a hierarchy about 1000 levels deep, and the model has no such limit.
- IDs are rendered with `str` for any integer.
- An entry's fields are a datatype rather than a dict, so the order in which keys are inserted is not modelled.
- FileNames.ChildrenMarkerIff: stated for a project ID that starts with a digit. Otherwise a project ID such as "with-children-x" could make the single-project name carry the marker as well.
- The bare statement "the name contains `-with-children-`" is not an if-and-only-if. A project named "a with children" sanitises to "a-with-children", so the marker text can come from the name itself.

## Findings

| source | as written | input that shows it | evidently intended | confidence | as-written member | corrected member |
|---|---|---|---|---|---|---|
| create_report.py:117 | passes six positional arguments (`baseURL, projectID, authToken, reportName, reportOptions, auditField`) to `gather_data_for_report`, which declares five (report_data.py:21), so the call raises TypeError | options `{"includeChildProjects": "True"}`: validation passes and the call is reached | call with the five declared arguments; the normal branch then gathers the data and names the artifacts | high; not executed | CreateReport.CreateReportAsWritten | CreateReport.CreateReport |
