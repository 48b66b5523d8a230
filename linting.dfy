/**
 * The linting preferences tab: the provider radio buttons, which decide
 * which group of provider options is visible, and the validation of the
 * Flake8 filename and exclusion patterns.
 *
 * Whether a pattern compiles as a regular expression is decided by a
 * function supplied by the caller, standing for `re.compile`.
 */
module Linting {
  import opened Wrappers
  import opened Text

  datatype Provider = Pyflakes | Flake8 | NoLinting

  /** The field whose patterns an error report concerns. */
  datatype Report = FilesReport | DirectoriesReport

  /** The message `report_invalid_regex` shows. */
  function InvalidRegexMessage(r: Report): string {
    match r
    case FilesReport => "File patterns listed for inclusion should be valid regular expressions"
    case DirectoriesReport => "Directory patterns listed for exclusion should be valid regular expressions"
  }

  /** The comma-separated patterns of a field, each stripped. */
  function Patterns(text: string): (r: seq<string>)
    ensures |r| >= 1
  {
    var pieces := Split(text, ",");
    seq(|pieces|, k requires 0 <= k < |pieces| => Strip(pieces[k]))
  }

  /** Every pattern of a field compiles. */
  predicate AllCompile(text: string, compiles: string -> bool) {
    forall k :: 0 <= k < |Patterns(text)| ==> compiles(Patterns(text)[k])
  }

  /**
   * The verdict of `is_valid`: the filename patterns are checked first,
   * the exclusion patterns only when those pass; `None` when both pass.
   */
  function Verdict(filenames: string, exclude: string, compiles: string -> bool): (r: Option<Report>)
    ensures r == None <==> AllCompile(filenames, compiles) && AllCompile(exclude, compiles)
    ensures r == Some(FilesReport) <==> !AllCompile(filenames, compiles)
    ensures r == Some(DirectoriesReport) <==> AllCompile(filenames, compiles) && !AllCompile(exclude, compiles)
  {
    if !AllCompile(filenames, compiles) then Some(FilesReport)
    else if !AllCompile(exclude, compiles) then Some(DirectoriesReport)
    else None
  }

  /** Empty fields are valid whenever the empty pattern compiles. */
  lemma EmptyFieldsValid(compiles: string -> bool)
    requires compiles("")
    ensures Verdict("", "", compiles) == None
  {
    assert Find("", ",") == -1;
    assert Split("", ",") == [""];
    assert Strip("") == "";
    assert Patterns("") == [""];
  }

  /** The groups made visible for a provider: Flake8 options, the Pyflakes note, the disabled note. */
  function VisibleGroups(p: Provider): (bool, bool, bool) {
    (p == Flake8, p == Pyflakes, p == NoLinting)
  }

  /** Exactly one group is visible for each provider, and different providers show different groups. */
  lemma ExactlyOneVisible(p: Provider, q: Provider)
    ensures var (a, b, c) := VisibleGroups(p);
      (a && !b && !c) || (!a && b && !c) || (!a && !b && c)
    ensures p != q ==> VisibleGroups(p) != VisibleGroups(q)
  {
  }

  class LintingConfigTab {
    var filenamesText: string
    var excludeText: string
    /** Shown but never validated. */
    var extendSelectText: string
    var extendIgnoreText: string
    var flake8GridVisible: bool
    var pyflakesNoteVisible: bool
    var disabledNoteVisible: bool
    /** The critical messages shown so far. */
    var messages: seq<string>

    constructor(filenames: string, exclude: string, extendSelect: string, extendIgnore: string)
      ensures filenamesText == filenames && excludeText == exclude
      ensures extendSelectText == extendSelect && extendIgnoreText == extendIgnore
      ensures messages == []
    {
      filenamesText := filenames;
      excludeText := exclude;
      extendSelectText := extendSelect;
      extendIgnoreText := extendIgnore;
      flake8GridVisible := false;
      pyflakesNoteVisible := false;
      disabledNoteVisible := false;
      messages := [];
    }

    /** A provider's radio button was checked or unchecked; unchecking changes nothing. */
    method Toggled(radio: Provider, checked: bool)
      modifies this`flake8GridVisible, this`pyflakesNoteVisible, this`disabledNoteVisible
      ensures !checked ==> unchanged(this)
      ensures checked ==> (flake8GridVisible, pyflakesNoteVisible, disabledNoteVisible) == VisibleGroups(radio)
    {
      if checked {
        match radio
        case Flake8 =>
          flake8GridVisible := checked;
          pyflakesNoteVisible := !checked;
          disabledNoteVisible := false;
        case Pyflakes =>
          flake8GridVisible := false;
          pyflakesNoteVisible := checked;
          disabledNoteVisible := false;
        case NoLinting =>
          flake8GridVisible := false;
          pyflakesNoteVisible := false;
          disabledNoteVisible := checked;
      }
    }

    /** `report_invalid_regex`. */
    method ReportInvalidRegex(files: bool)
      modifies this`messages
      ensures messages == old(messages) + [InvalidRegexMessage(if files then FilesReport else DirectoriesReport)]
    {
      messages := messages + [InvalidRegexMessage(if files then FilesReport else DirectoriesReport)];
    }

    /**
     * `is_valid`: every filename pattern, then every exclusion pattern,
     * must compile; the first failing field is reported. The result
     * depends on these two fields only.
     */
    method IsValid(compiles: string -> bool) returns (ok: bool)
      modifies this`messages
      ensures ok <==> Verdict(filenamesText, excludeText, compiles) == None
      ensures messages == old(messages) + match Verdict(filenamesText, excludeText, compiles)
        case None => []
        case Some(r) => [InvalidRegexMessage(r)]
    {
      var filesOk := CompileAll(filenamesText, compiles);
      if !filesOk {
        ReportInvalidRegex(true);
        return false;
      }
      var excludeOk := CompileAll(excludeText, compiles);
      if !excludeOk {
        ReportInvalidRegex(false);
        return false;
      }
      return true;
    }
  }

  /** Compiles the patterns of a field one after the other, stopping at the first that fails. */
  method CompileAll(text: string, compiles: string -> bool) returns (ok: bool)
    ensures ok <==> AllCompile(text, compiles)
  {
    var pieces := Split(text, ",");
    var i := 0;
    while i < |pieces|
      invariant 0 <= i <= |pieces|
      invariant forall k :: 0 <= k < i ==> compiles(Patterns(text)[k])
    {
      if !compiles(Strip(pieces[i])) {
        assert Patterns(text)[i] == Strip(pieces[i]);
        return false;
      }
      i := i + 1;
    }
    return true;
  }
}
