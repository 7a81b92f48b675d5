/**
 * The registry of restricted licenses: Code Insight license IDs (decimal
 * strings) of the AGPL and GPL families, mapped to their display names.
 * The table is filled once by twelve fixed assignments and never changes.
 */
module RestrictedLicenses {

  /**
   * A display name as the registry spells it: a family prefix, the words
   * "General Public License", the version text, and the SPDX identifier in
   * parentheses. Each entry below assembles to exactly the source's string.
   * The shape lemmas further down (`NameShape`, `SpdxSuffix`, and the
   * `...NamesWellFormed` lemmas) follow from this construction: they hold for
   * any arguments, and the registry's fidelity rests on the twelve entries.
   */
  function DisplayName(prefix: string, version: string, spdx: string): string {
    prefix + "General Public License " + version + " (" + spdx + ")"
  }

  const Registry: map<string, string> := map[
    "2026" := DisplayName("Affero ", "v1.0-deprecated", "AGPL-1.0-deprecated"),
    "1654" := DisplayName("Affero ", "v1.0 only", "AGPL-1.0-only"),
    "2074" := DisplayName("Affero ", "v1.0 or later", "AGPL-1.0-or-later"),
    "2076" := DisplayName("GNU Affero ", "v3.0-deprecated", "AGPL-3.0-deprecated"),
    "229"  := DisplayName("GNU Affero ", "v3.0 only", "AGPL-3.0-only"),
    "1217" := DisplayName("GNU Affero ", "v3.0 or later", "AGPL-3.0-or-later"),

    "343"  := DisplayName("GNU ", "v1.0 only", "GPL-1.0-only"),
    "698"  := DisplayName("GNU ", "v1.0 or later", "GPL-1.0-or-later"),
    "331"  := DisplayName("GNU ", "v2.0 only", "GPL-2.0-only"),
    "699"  := DisplayName("GNU ", "v2.0 or later", "GPL-2.0-or-later"),
    "1097" := DisplayName("GNU ", "v3.0 only", "GPL-3.0-only"),
    "702"  := DisplayName("GNU ", "v3.0 or later", "GPL-3.0-or-later")
  ]

  const AgplIds: set<string> := {"2026", "1654", "2074", "2076", "229", "1217"}
  const GplIds: set<string> := {"343", "698", "331", "699", "1097", "702"}

  /** A license is restricted exactly when its ID string is a key of the registry. */
  predicate IsRestricted(licenseId: string) {
    licenseId in Registry
  }

  predicate IsDecimal(s: string) {
    |s| > 0 && forall i | 0 <= i < |s| :: '0' <= s[i] <= '9'
  }

  predicate IsSuffix(suffix: string, s: string) {
    |suffix| <= |s| && s[|s| - |suffix|..] == suffix
  }

  predicate OccursAt(s: string, part: string, i: nat) {
    i + |part| <= |s| && s[i..i + |part|] == part
  }

  ghost predicate Contains(s: string, part: string) {
    exists i: nat :: OccursAt(s, part, i)
  }

  predicate IsIdChar(c: char) {
    'a' <= c <= 'z' || 'A' <= c <= 'Z' || '0' <= c <= '9' || c == '.' || c == '-'
  }

  predicate IsIdentifier(s: string) {
    |s| > 0 && forall j | 0 <= j < |s| :: IsIdChar(s[j])
  }

  /** name[k] opens the final parenthesis and the text up to the closing ')' is an identifier. */
  predicate ParenthesisedIdFrom(name: string, k: nat) {
    k + 2 < |name| && name[k] == '(' && name[|name| - 1] == ')' && IsIdentifier(name[k + 1..|name| - 1])
  }

  ghost predicate EndsWithParenthesisedId(name: string) {
    exists k: nat :: ParenthesisedIdFrom(name, k)
  }

  /** The registry's keys are exactly the AGPL family and the GPL family. */
  lemma RegistryKeys()
    ensures Registry.Keys == AgplIds + GplIds
  {
  }

  /** Each family holds six distinct IDs. */
  lemma FamilySizes()
    ensures |AgplIds| == 6 && |GplIds| == 6
  {
    var agpl: set<string> := {};
    assert "2026" !in agpl; agpl := agpl + {"2026"};
    assert "1654" !in agpl; agpl := agpl + {"1654"};
    assert "2074" !in agpl; agpl := agpl + {"2074"};
    assert "2076" !in agpl; agpl := agpl + {"2076"};
    assert "229" !in agpl; agpl := agpl + {"229"};
    assert "1217" !in agpl; agpl := agpl + {"1217"};
    assert agpl == AgplIds;
    var gpl: set<string> := {};
    assert "343" !in gpl; gpl := gpl + {"343"};
    assert "698" !in gpl; gpl := gpl + {"698"};
    assert "331" !in gpl; gpl := gpl + {"331"};
    assert "699" !in gpl; gpl := gpl + {"699"};
    assert "1097" !in gpl; gpl := gpl + {"1097"};
    assert "702" !in gpl; gpl := gpl + {"702"};
    assert gpl == GplIds;
  }

  /** No ID belongs to both families. */
  lemma FamiliesDisjoint()
    ensures AgplIds !! GplIds
  {
    forall id | id in AgplIds ensures id !in GplIds {
    }
  }

  /** The registry holds exactly twelve license IDs. */
  lemma RegistrySize()
    ensures |Registry| == 12
  {
    RegistryKeys();
    FamilySizes();
    FamiliesDisjoint();
    assert |AgplIds + GplIds| == |AgplIds| + |GplIds|;
    assert |Registry| == |Registry.Keys|;
  }

  /** Every key is a decimal-digit string. */
  lemma KeysAreDecimal(licenseId: string)
    requires IsRestricted(licenseId)
    ensures IsDecimal(licenseId)
  {
  }

  /** Membership is by exact key: an ID outside the two families is not restricted. */
  lemma OnlyListedIdsAreRestricted(licenseId: string)
    requires licenseId !in AgplIds && licenseId !in GplIds
    ensures !IsRestricted(licenseId)
  {
  }

  /** The parenthesised SPDX identifier is the tail of a display name. */
  lemma SpdxSuffix(prefix: string, version: string, spdx: string)
    ensures IsSuffix("(" + spdx + ")", DisplayName(prefix, version, spdx))
  {
    var name := DisplayName(prefix, version, spdx);
    var head := prefix + "General Public License " + version + " ";
    assert name == head + ("(" + spdx + ")");
  }

  /** "331" is GPL-2.0-only and "1097" is GPL-3.0-only; "100" is not listed. */
  lemma SampleEntries()
    ensures IsRestricted("331") && IsSuffix("(" + "GPL-2.0-only" + ")", Registry["331"])
    ensures IsRestricted("1097") && IsSuffix("(" + "GPL-3.0-only" + ")", Registry["1097"])
    ensures !IsRestricted("100")
  {
    SpdxSuffix("GNU ", "v2.0 only", "GPL-2.0-only");
    SpdxSuffix("GNU ", "v3.0 only", "GPL-3.0-only");
  }

  /** A display name contains "General Public License" and ends with its identifier in parentheses. */
  lemma NameShape(prefix: string, version: string, spdx: string)
    requires IsIdentifier(spdx)
    ensures Contains(DisplayName(prefix, version, spdx), "General Public License")
    ensures EndsWithParenthesisedId(DisplayName(prefix, version, spdx))
  {
    var gpl := "General Public License";
    var name := DisplayName(prefix, version, spdx);
    assert name == prefix + gpl + (" " + version + " (" + spdx + ")");
    assert name[|prefix|..|prefix| + |gpl|] == gpl;
    assert OccursAt(name, gpl, |prefix|);
    var k := |prefix| + |gpl| + 1 + |version| + 1;
    assert name == (prefix + gpl + " " + version + " ") + "(" + spdx + ")";
    assert name[k + 1..|name| - 1] == spdx;
    assert ParenthesisedIdFrom(name, k);
  }

  /** The SPDX identifiers AGPL-1.0-deprecated and AGPL-1.0-only are identifiers. */
  lemma AgplSpdxIdentifiers1()
    ensures IsIdentifier("AGPL-1.0-deprecated") && IsIdentifier("AGPL-1.0-only")
  {
  }

  /** The SPDX identifiers AGPL-1.0-or-later and AGPL-3.0-deprecated are identifiers. */
  lemma AgplSpdxIdentifiers2()
    ensures IsIdentifier("AGPL-1.0-or-later") && IsIdentifier("AGPL-3.0-deprecated")
  {
  }

  /** The SPDX identifiers AGPL-3.0-only and AGPL-3.0-or-later are identifiers. */
  lemma AgplSpdxIdentifiers3()
    ensures IsIdentifier("AGPL-3.0-only") && IsIdentifier("AGPL-3.0-or-later")
  {
  }

  /** The SPDX identifiers GPL-1.0-only and GPL-1.0-or-later are identifiers. */
  lemma GplSpdxIdentifiers1()
    ensures IsIdentifier("GPL-1.0-only") && IsIdentifier("GPL-1.0-or-later")
  {
  }

  /** The SPDX identifiers GPL-2.0-only and GPL-2.0-or-later are identifiers. */
  lemma GplSpdxIdentifiers2()
    ensures IsIdentifier("GPL-2.0-only") && IsIdentifier("GPL-2.0-or-later")
  {
  }

  /** The SPDX identifiers GPL-3.0-only and GPL-3.0-or-later are identifiers. */
  lemma GplSpdxIdentifiers3()
    ensures IsIdentifier("GPL-3.0-only") && IsIdentifier("GPL-3.0-or-later")
  {
  }

  /** Every AGPL-family display name is well formed. */
  lemma AgplNamesWellFormed(licenseId: string)
    requires licenseId in AgplIds
    ensures Contains(Registry[licenseId], "General Public License")
    ensures EndsWithParenthesisedId(Registry[licenseId])
  {
    AgplSpdxIdentifiers1();
    AgplSpdxIdentifiers2();
    AgplSpdxIdentifiers3();
    match licenseId
    case "2026" => NameShape("Affero ", "v1.0-deprecated", "AGPL-1.0-deprecated");
    case "1654" => NameShape("Affero ", "v1.0 only", "AGPL-1.0-only");
    case "2074" => NameShape("Affero ", "v1.0 or later", "AGPL-1.0-or-later");
    case "2076" => NameShape("GNU Affero ", "v3.0-deprecated", "AGPL-3.0-deprecated");
    case "229" => NameShape("GNU Affero ", "v3.0 only", "AGPL-3.0-only");
    case "1217" => NameShape("GNU Affero ", "v3.0 or later", "AGPL-3.0-or-later");
  }

  /** Every GPL-family display name is well formed. */
  lemma GplNamesWellFormed(licenseId: string)
    requires licenseId in GplIds
    ensures Contains(Registry[licenseId], "General Public License")
    ensures EndsWithParenthesisedId(Registry[licenseId])
  {
    GplSpdxIdentifiers1();
    GplSpdxIdentifiers2();
    GplSpdxIdentifiers3();
    match licenseId
    case "343" => NameShape("GNU ", "v1.0 only", "GPL-1.0-only");
    case "698" => NameShape("GNU ", "v1.0 or later", "GPL-1.0-or-later");
    case "331" => NameShape("GNU ", "v2.0 only", "GPL-2.0-only");
    case "699" => NameShape("GNU ", "v2.0 or later", "GPL-2.0-or-later");
    case "1097" => NameShape("GNU ", "v3.0 only", "GPL-3.0-only");
    case "702" => NameShape("GNU ", "v3.0 or later", "GPL-3.0-or-later");
  }

  /** Every registered display name names a General Public License and ends with a parenthesised identifier. */
  lemma DisplayNamesWellFormed(licenseId: string)
    requires IsRestricted(licenseId)
    ensures Contains(Registry[licenseId], "General Public License")
    ensures EndsWithParenthesisedId(Registry[licenseId])
  {
    if licenseId in AgplIds {
      AgplNamesWellFormed(licenseId);
    } else {
      GplNamesWellFormed(licenseId);
    }
  }
}
