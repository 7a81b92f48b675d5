/**
 * Validation of the report options: the "includeChildProjects" string is
 * turned into a boolean when it is one of the accepted spellings, compared
 * without regard to case; anything else is reported under "errorMsg".
 */
module ReportOptions {

  /** A value of the options dictionary, as JSON decoding and the validator leave it. */
  datatype OptionValue = Text(s: string) | Flag(b: bool) | Messages(msgs: seq<string>)

  const IncludeKey := "includeChildProjects"
  const ErrorKey := "errorMsg"

  const TrueOptions: seq<string> := ["true", "t", "yes", "y"]
  const FalseOptions: seq<string> := ["false", "f", "no", "n"]

  // ---------------------------------------------------------------------
  // str.lower() on ASCII letters.

  function LowerChar(c: char): char {
    if 'A' <= c <= 'Z' then c - 'A' + 'a' else c
  }

  function Lower(s: string): string {
    seq(|s|, i requires 0 <= i < |s| => LowerChar(s[i]))
  }

  /** `a` and `b` spell the same word when letter case is ignored. */
  predicate SameIgnoringCase(a: string, b: string) {
    |a| == |b| && forall i | 0 <= i < |a| :: LowerChar(a[i]) == LowerChar(b[i])
  }

  /** The verdict on a spelling depends only on its letters, not on their case. */
  lemma VerdictIgnoresCase(a: string, b: string)
    requires SameIgnoringCase(a, b)
    ensures Lower(a) in TrueOptions <==> Lower(b) in TrueOptions
    ensures Lower(a) in FalseOptions <==> Lower(b) in FalseOptions
  {
    assert Lower(a) == Lower(b);
  }

  /** No spelling is accepted as both true and false. */
  lemma WordListsDisjoint(w: string)
    ensures !(w in TrueOptions && w in FalseOptions)
  {
    if w in TrueOptions {
      assert w[0] == 't' || w[0] == 'y';
    }
  }

  /** Mixed-case spellings of the accepted words are accepted. */
  lemma MixedCaseAccepted()
    ensures Lower("TRUE") in TrueOptions && Lower("Yes") in TrueOptions
    ensures Lower("False") in FalseOptions && Lower("N") in FalseOptions
  {
    assert Lower("TRUE") == "true";
    assert Lower("Yes") == "yes";
    assert Lower("False") == "false";
    assert Lower("N") == "n";
  }

  /** Other words, digits and the empty string are rejected. */
  lemma OtherSpellingsRejected()
    ensures !IsFlagWord("maybe") && !IsFlagWord("1") && !IsFlagWord("")
  {
    assert Lower("maybe")[0] == 'm';
    assert Lower("1")[0] == '1';
  }

  // ---------------------------------------------------------------------
  // verifyOptions.

  const InvalidIncludePrefix := "Invalid option for including child projects: <b>"
  const InvalidIncludeSuffix := "</b>.  Valid options are <b>True/False</b>"

  /** The message recorded for a rejected value; it quotes the value as given. */
  function InvalidIncludeMessage(raw: string): (m: string)
    ensures |m| == |InvalidIncludePrefix| + |raw| + |InvalidIncludeSuffix|
    ensures m[|InvalidIncludePrefix|..|InvalidIncludePrefix| + |raw|] == raw
  {
    InvalidIncludePrefix + raw + InvalidIncludeSuffix
  }

  /** The value is one of the accepted spellings of true or false. */
  predicate IsFlagWord(raw: string) {
    Lower(raw) in TrueOptions || Lower(raw) in FalseOptions
  }

  /**
   * Checks the options and returns them updated: "includeChildProjects"
   * becomes a boolean when its spelling is accepted, and "errorMsg" holds the
   * list of problems and is present only when there is at least one.
   */
  method VerifyOptions(reportOptions: map<string, OptionValue>) returns (r: map<string, OptionValue>)
    requires IncludeKey in reportOptions && reportOptions[IncludeKey].Text?
    ensures IncludeKey in r
    ensures r[IncludeKey] == Flag(true) <==> Lower(reportOptions[IncludeKey].s) in TrueOptions
    ensures r[IncludeKey] == Flag(false) <==> Lower(reportOptions[IncludeKey].s) in FalseOptions
    ensures !IsFlagWord(reportOptions[IncludeKey].s) ==> r[IncludeKey] == reportOptions[IncludeKey]
    ensures ErrorKey in r <==> !IsFlagWord(reportOptions[IncludeKey].s)
    ensures ErrorKey in r ==> r[ErrorKey] == Messages([InvalidIncludeMessage(reportOptions[IncludeKey].s)])
    ensures forall k | k in reportOptions && k != IncludeKey && k != ErrorKey :: k in r && r[k] == reportOptions[k]
    ensures forall k | k in r :: k in reportOptions || k == ErrorKey
  {
    var errorMsg: seq<string> := [];
    r := reportOptions[ErrorKey := Messages(errorMsg)];
    var includeChildProjects := r[IncludeKey].s;
    if Lower(includeChildProjects) in TrueOptions {
      r := r[IncludeKey := Flag(true)];
    } else if Lower(includeChildProjects) in FalseOptions {
      r := r[IncludeKey := Flag(false)];
    } else {
      errorMsg := errorMsg + [InvalidIncludeMessage(includeChildProjects)];
      r := r[ErrorKey := Messages(errorMsg)];
    }
    if errorMsg == [] {
      r := r - {ErrorKey};
    }
  }
}
