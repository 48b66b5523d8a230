/**
 * A preferences page: line edits bound to configuration options, the set of
 * options changed since the last apply, the modified flag that enables the
 * Apply button, the prompt asking for a restart, the write-back of changed
 * options only, the text encoding of list options and the validation of
 * the page's line edits and tabs.
 *
 * The configuration store is a map from (section, option) to a value; a
 * missing section is `None`. Validators (`osp.isdir`, `osp.isfile`) are
 * identified by a number and judged by a function given by the caller.
 */
module ConfigPage {
  import opened Wrappers
  import opened Text
  import opened Dicts

  /** An entry of `changed_options`: an option alone, or a (section, option) pair. */
  datatype OptionKey = Bare(option: string) | Sectioned(section: string, option: string)

  /** The entry recorded for a change: the option alone when no section is given. */
  function KeyOf(section: Option<string>, option: string): (k: OptionKey)
    ensures k.option == option
    ensures k.Bare? <==> section.None?
    ensures k.Sectioned? ==> section == Some(k.section)
  {
    if section.None? then Bare(option) else Sectioned(section.value, option)
  }

  /** A configuration value. */
  datatype Value = Str(s: string) | Items(xs: seq<string>) | Flag(b: bool) | Num(n: int)

  type Store = map<(Option<string>, string), Value>

  /** The section an option is read from and written to: the page's own when none is given. */
  function SectionFor(confSection: Option<string>, section: Option<string>): (r: Option<string>)
    ensures section.Some? ==> r == section
    ensures section.None? ==> r == confSection
  {
    if section.None? then confSection else section
  }

  /** Reading an option: the stored value, else the default, else an error. */
  function Lookup(store: Store, key: (Option<string>, string), default: Option<Value>): (r: Result<Value, string>)
    ensures r.Err? <==> key !in store && default.None?
    ensures key in store ==> r == Ok(store[key])
    ensures key !in store && default.Some? ==> r == Ok(default.value)
  {
    if key in store then Ok(store[key])
    else if default.Some? then Ok(default.value)
    else Err("NoOptionError")
  }

  /** Python's `repr` of a list of strings, without the escaping of quotes. */
  function ListRepr(xs: seq<string>): string {
    "[" + Join(seq(|xs|, i requires 0 <= i < |xs| => "'" + xs[i] + "'"), ", ") + "]"
  }

  /** Python's `str` of a value. */
  function ValueText(v: Value): string {
    match v
    case Str(s) => s
    case Items(xs) => ListRepr(xs)
    case Flag(b) => if b then "True" else "False"
    case Num(n) => IntToString(n)
  }

  /** The characters of a text, as the one-character strings Python iterates over. */
  function Chars(s: string): (r: seq<string>)
    ensures |r| == |s| && forall i :: 0 <= i < |s| ==> r[i] == [s[i]]
  {
    seq(|s|, i requires 0 <= i < |s| => [s[i]])
  }

  /**
   * The text a line edit shows for a value: a list option shows its items
   * joined by ", " (a string is joined character by character, anything
   * else raises `TypeError`); any other option shows `str` of the value.
   */
  function ShownText(v: Value, asList: bool): (r: Result<string, string>)
    ensures !asList ==> r == Ok(ValueText(v))
    ensures asList && v.Items? ==> r == Ok(Join(v.xs, ", "))
    ensures r.Err? <==> asList && (v.Flag? || v.Num?)
  {
    if !asList then Ok(ValueText(v))
    else
      match v
      case Items(xs) => Ok(Join(xs, ", "))
      case Str(s) => Ok(Join(Chars(s), ", "))
      case _ => Err("TypeError")
  }

  function Strips(ps: seq<string>): (r: seq<string>)
    ensures |r| == |ps| && forall i :: 0 <= i < |ps| ==> r[i] == Strip(ps[i])
  {
    seq(|ps|, i requires 0 <= i < |ps| => Strip(ps[i]))
  }

  /** The value saved from a line edit's text: a list option splits on "," and strips each item. */
  function SavedValue(text: string, asList: bool): (v: Value)
    ensures asList ==> v.Items? && |v.xs| >= 1
    ensures asList ==> forall k :: 0 <= k < |v.xs| ==> IsStripped(v.xs[k]) && !Contains(v.xs[k], ",")
    ensures !asList ==> v == Str(text)
  {
    if asList then
      var pieces := Split(text, ",");
      SplitPiecesFree(text, ",");
      StripsFree(pieces);
      Items(Strips(pieces))
    else Str(text)
  }

  /** Stripping keeps pieces free of a separator and leaves them without surrounding whitespace. */
  lemma StripsFree(ps: seq<string>)
    requires forall k :: 0 <= k < |ps| ==> !Contains(ps[k], ",")
    ensures forall k :: 0 <= k < |ps| ==> IsStripped(Strips(ps)[k]) && !Contains(Strips(ps)[k], ",")
  {
    forall k | 0 <= k < |ps| ensures IsStripped(Strip(ps[k])) && !Contains(Strip(ps[k]), ",") {
      StripIsStripped(ps[k]);
      StripInside(ps[k], ",");
    }
  }

  lemma StripIsStripped(s: string)
    ensures IsStripped(Strip(s))
  {
    var l := StripLeft(s);
    StripRightKeepsFront(l);
  }

  /** Stripping trailing blanks from a text that starts with a non-blank keeps that start. */
  lemma {:induction false} StripRightKeepsFront(s: string)
    requires |s| == 0 || !IsSpace(s[0])
    ensures |StripRight(s)| == 0 || !IsSpace(StripRight(s)[0])
    decreases |s|
  {
    if |s| > 0 && IsSpace(s[|s| - 1]) {
      var t := s[..|s| - 1];
      assert |t| == 0 || t[0] == s[0];
      StripRightKeepsFront(t);
    }
  }

  /** Stripping only removes characters around the text, so it adds no occurrence. */
  lemma StripInside(s: string, sub: string)
    requires !Contains(s, sub)
    ensures !Contains(Strip(s), sub)
  {
    StripLeftInside(s, sub);
    StripRightInside(StripLeft(s), sub);
  }

  /** A text that does not contain `sub` has no occurrence in a slice of it. */
  lemma SliceInside(s: string, i: nat, j: nat, sub: string)
    requires i <= j <= |s| && !Contains(s, sub)
    ensures !Contains(s[i..j], sub)
  {
    var t := s[i..j];
    forall p | 0 <= p <= |t| ensures !OccursAt(t, sub, p) {
      if p + |sub| <= |t| {
        assert forall m :: 0 <= m < |t| ==> t[m] == s[i + m];
        assert t[p..p + |sub|] == s[i + p..i + p + |sub|];
        assert !OccursAt(s, sub, i + p);
      }
    }
  }

  lemma {:induction false} StripLeftInside(s: string, sub: string)
    requires !Contains(s, sub)
    ensures !Contains(StripLeft(s), sub)
    decreases |s|
  {
    if |s| > 0 && IsSpace(s[0]) {
      SliceInside(s, 1, |s|, sub);
      assert s[1..|s|] == s[1..];
      StripLeftInside(s[1..], sub);
    }
  }

  lemma {:induction false} StripRightInside(s: string, sub: string)
    requires !Contains(s, sub)
    ensures !Contains(StripRight(s), sub)
    decreases |s|
  {
    if |s| > 0 && IsSpace(s[|s| - 1]) {
      SliceInside(s, 0, |s| - 1, sub);
      StripRightInside(s[..|s| - 1], sub);
    }
  }

  /** Every item but the first preceded by one blank. */
  function Blanked(ys: seq<string>): (r: seq<string>)
    ensures |r| == |ys| && forall i :: 0 <= i < |ys| ==> r[i] == " " + ys[i]
  {
    seq(|ys|, i requires 0 <= i < |ys| => " " + ys[i])
  }

  /** Joining by ", " is joining by "," the items with a blank in front. */
  lemma {:induction false} JoinCommaSpace(ys: seq<string>)
    requires |ys| >= 1
    ensures " " + Join(ys, ", ") == Join(Blanked(ys), ",")
    decreases |ys|
  {
    if |ys| >= 2 {
      JoinCommaSpace(ys[1..]);
      assert Blanked(ys)[1..] == Blanked(ys[1..]);
      assert " " + Join(ys, ", ") == (" " + ys[0]) + "," + (" " + Join(ys[1..], ", "));
    }
  }

  /**
   * A list option survives being shown and saved again when its items hold
   * no comma and no surrounding whitespace and the list is not empty.
   */
  lemma ListRoundTrip(xs: seq<string>)
    requires |xs| >= 1
    requires forall k :: 0 <= k < |xs| ==> !Contains(xs[k], ",") && IsStripped(xs[k])
    ensures ShownText(Items(xs), true) == Ok(Join(xs, ", "))
    ensures SavedValue(Join(xs, ", "), true) == Items(xs)
  {
    var pieces := Pieces(xs);
    JoinAsPieces(xs);
    PiecesSeparable(xs);
    SplitJoin(pieces, ",");
    StripPieces(xs);
    assert Split(Join(xs, ", "), ",") == pieces;
  }

  /** The pieces a list text splits into at its commas. */
  function Pieces(xs: seq<string>): (r: seq<string>)
    requires |xs| >= 1
    ensures |r| == |xs| && r[0] == xs[0] && forall k :: 1 <= k < |xs| ==> r[k] == " " + xs[k]
  {
    [xs[0]] + Blanked(xs[1..])
  }

  lemma {:induction false} JoinAsPieces(xs: seq<string>)
    requires |xs| >= 1
    ensures Join(xs, ", ") == Join(Pieces(xs), ",")
  {
    var pieces := Pieces(xs);
    if |xs| >= 2 {
      JoinCommaSpace(xs[1..]);
      JoinCons(xs[0], Blanked(xs[1..]), ",");
      assert pieces == [xs[0]] + Blanked(xs[1..]);
      var rest := Join(xs[1..], ", ");
      assert Join(xs, ", ") == xs[0] + ", " + rest;
      assert xs[0] + ", " + rest == xs[0] + "," + (" " + rest);
    }
  }

  lemma PiecesSeparable(xs: seq<string>)
    requires |xs| >= 1
    requires forall k :: 0 <= k < |xs| ==> !Contains(xs[k], ",")
    ensures forall k :: 0 <= k < |xs| ==> Separable(Pieces(xs)[k], ",")
  {
    var pieces := Pieces(xs);
    forall k | 0 <= k < |pieces| ensures Separable(pieces[k], ",") {
      if k == 0 {
        SingleSeparable(xs[0], ',');
      } else {
        NoCommaBlanked(xs[k]);
        assert pieces[k] == " " + xs[k];
        SingleSeparable(pieces[k], ',');
      }
    }
  }

  lemma StripPieces(xs: seq<string>)
    requires |xs| >= 1
    requires forall k :: 0 <= k < |xs| ==> IsStripped(xs[k])
    ensures Strips(Pieces(xs)) == xs
  {
    var pieces := Pieces(xs);
    forall k | 0 <= k < |xs| ensures Strip(pieces[k]) == xs[k] {
      if k == 0 {
        StripStripped(xs[0]);
      } else {
        assert pieces[k] == " " + xs[k];
        StripBlankPrefixed(xs[k]);
      }
    }
    assert Strips(pieces) == xs;
  }

  lemma NoCommaBlanked(x: string)
    requires !Contains(x, ",")
    ensures !Contains(" " + x, [','])
  {
    var t := " " + x;
    forall p | 0 <= p <= |t| ensures !OccursAt(t, [','], p) {
      if p >= 1 && p + 1 <= |t| {
        assert t[p..p + 1] == x[p - 1..p];
        assert !OccursAt(x, ",", p - 1);
      }
    }
  }

  /** An empty list comes back as a list holding one empty item. */
  lemma EmptyListRoundTrip()
    ensures ShownText(Items([]), true) == Ok("")
    ensures SavedValue("", true) == Items([""])
  {
    assert Find("", ",") == -1;
    assert Strip("") == "";
  }

  /**
   * A list shown with a single item comes back split at every comma of that
   * item: one item more than it has commas, each the stripped text between
   * two commas, and those texts rejoined with "," are the item again.
   */
  lemma CommaItemSplits(x: string)
    ensures ShownText(Items([x]), true) == Ok(x)
    ensures var v := SavedValue(x, true);
      |v.xs| == multiset(x)[','] + 1
      && Join(Split(x, ","), ",") == x
      && forall k :: 0 <= k < |v.xs| ==> v.xs[k] == Strip(Split(x, ",")[k])
  {
    SplitCount(x, ',');
    JoinSplit(x, ",");
  }

  /** A line edit of the page and the option it is bound to. */
  datatype LineEdit = LineEdit(
    section: Option<string>,
    option: string,
    default: Option<Value>,
    asList: bool,
    text: string,
    enabled: bool,
    /** The validator and the message shown when it rejects the text. */
    validator: Option<(nat, string)>,
    restart: bool,
    caption: string)

  /** Whether `save_to_conf` writes an option back. */
  predicate ShouldSave(changed: set<OptionKey>, loadFromConfig: bool, section: Option<string>, option: string) {
    Bare(option) in changed
    || (section.Some? && Sectioned(section.value, option) in changed)
    || !loadFromConfig
  }

  type Write = ((Option<string>, string), Value)

  /** The writes of `save_to_conf` over the line edits, in order. */
  function Saved(edits: seq<LineEdit>, changed: set<OptionKey>, loadFromConfig: bool, confSection: Option<string>): (r: seq<Write>)
    ensures |r| <= |edits|
    decreases |edits|
  {
    if |edits| == 0 then []
    else
      var e := edits[|edits| - 1];
      Saved(edits[..|edits| - 1], changed, loadFromConfig, confSection) + WriteOf(e, changed, loadFromConfig, confSection)
  }

  /** The store after a series of writes, in order. */
  function Written(store: Store, ws: seq<Write>): (r: Store)
    ensures r.Keys == store.Keys + set k | k in ws :: k.0
    decreases |ws|
  {
    if |ws| == 0 then store
    else
      var w := ws[|ws| - 1];
      var r := Written(store, ws[..|ws| - 1])[w.0 := w.1];
      assert forall k :: k in ws <==> k in ws[..|ws| - 1] || k == w;
      r
  }

  /** The write of one more line edit, if its option changed. */
  function WriteOf(e: LineEdit, changed: set<OptionKey>, load: bool, confSection: Option<string>): seq<Write> {
    if ShouldSave(changed, load, e.section, e.option)
    then [((SectionFor(confSection, e.section), e.option), SavedValue(e.text, e.asList))]
    else []
  }

  lemma SavedStep(edits: seq<LineEdit>, i: nat, changed: set<OptionKey>, load: bool, confSection: Option<string>)
    requires i < |edits|
    ensures Saved(edits[..i + 1], changed, load, confSection)
      == Saved(edits[..i], changed, load, confSection) + WriteOf(edits[i], changed, load, confSection)
  {
    assert edits[..i + 1][..i] == edits[..i];
  }

  lemma WrittenStep(store: Store, ws: seq<Write>, more: seq<Write>)
    requires |more| <= 1
    ensures |more| == 1 ==> Written(store, ws + more) == Written(store, ws)[more[0].0 := more[0].1]
    ensures |more| == 0 ==> Written(store, ws + more) == Written(store, ws)
  {
    assert |more| == 1 ==> (ws + more)[..|ws|] == ws;
    assert ws + [] == ws;
  }

  /** Each write of `save_to_conf` is the saved value of a line edit whose option changed. */
  lemma {:induction false} SavedOnlyChanged(edits: seq<LineEdit>, changed: set<OptionKey>, load: bool, confSection: Option<string>)
    ensures forall w :: w in Saved(edits, changed, load, confSection) ==>
      exists i :: 0 <= i < |edits| && ShouldSave(changed, load, edits[i].section, edits[i].option)
        && w == ((SectionFor(confSection, edits[i].section), edits[i].option), SavedValue(edits[i].text, edits[i].asList))
    decreases |edits|
  {
    if |edits| > 0 {
      var init := edits[..|edits| - 1];
      SavedOnlyChanged(init, changed, load, confSection);
      forall w | w in Saved(edits, changed, load, confSection)
        ensures exists i :: (0 <= i < |edits| && ShouldSave(changed, load, edits[i].section, edits[i].option)
          && w == ((SectionFor(confSection, edits[i].section), edits[i].option), SavedValue(edits[i].text, edits[i].asList)))
      {
        if w in Saved(init, changed, load, confSection) {
          var i :| 0 <= i < |init| && ShouldSave(changed, load, init[i].section, init[i].option)
            && w == ((SectionFor(confSection, init[i].section), init[i].option), SavedValue(init[i].text, init[i].asList));
          assert init[i] == edits[i];
        }
      }
    }
  }

  /** Every line edit whose option changed is written, in the order of the edits. */
  lemma {:induction false} SavedEveryChanged(edits: seq<LineEdit>, changed: set<OptionKey>, load: bool, confSection: Option<string>)
    ensures forall i :: 0 <= i < |edits| && ShouldSave(changed, load, edits[i].section, edits[i].option) ==>
      ((SectionFor(confSection, edits[i].section), edits[i].option), SavedValue(edits[i].text, edits[i].asList))
        in Saved(edits, changed, load, confSection)
    decreases |edits|
  {
    if |edits| > 0 {
      var init := edits[..|edits| - 1];
      SavedEveryChanged(init, changed, load, confSection);
      forall i | 0 <= i < |init| ensures init[i] == edits[i] { }
    }
  }

  /** Nothing is written when nothing changed and the page loads from the configuration. */
  lemma {:induction false} NothingChangedNothingSaved(edits: seq<LineEdit>, confSection: Option<string>)
    ensures Saved(edits, {}, true, confSection) == []
    decreases |edits|
  {
    if |edits| > 0 {
      NothingChangedNothingSaved(edits[..|edits| - 1], confSection);
    }
  }

  /** A page that does not load from the configuration writes every line edit back. */
  lemma {:induction false} NotLoadingSavesAll(edits: seq<LineEdit>, changed: set<OptionKey>, confSection: Option<string>)
    ensures |Saved(edits, changed, false, confSection)| == |edits|
    decreases |edits|
  {
    if |edits| > 0 {
      NotLoadingSavesAll(edits[..|edits| - 1], changed, confSection);
    }
  }

  /** An option not written keeps its stored value. */
  lemma {:induction false} WrittenKeeps(store: Store, ws: seq<Write>, key: (Option<string>, string))
    requires forall k :: 0 <= k < |ws| ==> ws[k].0 != key
    ensures key in Written(store, ws) <==> key in store
    ensures key in store ==> Written(store, ws)[key] == store[key]
    decreases |ws|
  {
    if |ws| > 0 {
      WrittenKeeps(store, ws[..|ws| - 1], key);
    }
  }

  /** Does this line edit's validator reject its text? */
  predicate Rejects(e: LineEdit, accepts: (nat, string) -> bool) {
    e.validator.Some? && e.enabled && !accepts(e.validator.value.0, e.text)
  }

  /** The first line edit whose validator rejects its text, if any. */
  function FirstRejected(edits: seq<LineEdit>, accepts: (nat, string) -> bool, from: nat): (r: Option<nat>)
    requires from <= |edits|
    ensures r.Some? ==> from <= r.value < |edits| && Rejects(edits[r.value], accepts)
    ensures forall k :: from <= k < |edits| && (r.None? || k < r.value) ==> !Rejects(edits[k], accepts)
    decreases |edits| - from
  {
    if from == |edits| then None
    else if Rejects(edits[from], accepts) then Some(from)
    else FirstRejected(edits, accepts, from + 1)
  }

  /** The number of tab results asked for: up to and including the first false one. */
  function TabsAsked(tabs: seq<bool>): (n: nat)
    ensures n <= |tabs|
    ensures forall k :: 0 <= k < n - 1 ==> tabs[k]
    ensures n < |tabs| ==> n > 0 && !tabs[n - 1]
    ensures n == |tabs| ==> forall k :: 0 <= k < |tabs| - 1 ==> tabs[k]
    decreases |tabs|
  {
    if |tabs| == 0 then 0
    else if !tabs[0] then 1
    else 1 + TabsAsked(tabs[1..])
  }

  class SpyderConfigPage {
    /** The page's own section (`CONF_SECTION`). */
    const confSection: Option<string>
    /** `LOAD_FROM_CONFIG`. */
    const loadFromConfig: bool
    var store: Store
    var lineEdits: seq<LineEdit>
    var changedOptions: set<OptionKey>
    /** Options whose change needs a restart, with their labels. */
    var restartOptions: seq<(OptionKey, string)>
    /** Options bound to a section other than the page's, with that section. */
    var crossSectionOptions: seq<(string, string)>
    var isModified: bool
    /** The state last sent to the Apply button. */
    var applyEnabled: bool
    /** How many times the restart prompt was shown. */
    var restartPrompts: nat

    predicate Valid()
      reads this`restartOptions, this`crossSectionOptions
    {
      UniqueKeys(restartOptions) && UniqueKeys(crossSectionOptions)
    }

    constructor(confSection: Option<string>, loadFromConfig: bool, store: Store)
      ensures this.confSection == confSection && this.loadFromConfig == loadFromConfig
      ensures this.store == store && lineEdits == [] && changedOptions == {}
      ensures restartOptions == [] && crossSectionOptions == []
      ensures !isModified && !applyEnabled && restartPrompts == 0
      ensures Valid()
    {
      this.confSection := confSection;
      this.loadFromConfig := loadFromConfig;
      this.store := store;
      lineEdits := [];
      changedOptions := {};
      restartOptions := [];
      crossSectionOptions := [];
      isModified := false;
      applyEnabled := false;
      restartPrompts := 0;
    }

    /** `set_option`: writes under the page's section when none is given. */
    method SetOption(option: string, value: Value, section: Option<string>)
      modifies this`store
      ensures store == old(store)[(SectionFor(confSection, section), option) := value]
    {
      store := store[(SectionFor(confSection, section), option) := value];
    }

    /** `get_option`: reads under the page's section when none is given. */
    method GetOption(option: string, default: Option<Value>, section: Option<string>) returns (r: Result<Value, string>)
      ensures r.Err? <==> (SectionFor(confSection, section), option) !in store && default.None?
      ensures (SectionFor(confSection, section), option) in store ==>
        r == Ok(store[(SectionFor(confSection, section), option)])
      ensures (SectionFor(confSection, section), option) !in store && default.Some? ==>
        r == Ok(default.value)
    {
      r := Lookup(store, (SectionFor(confSection, section), option), default);
    }

    method SetModified(state: bool)
      modifies this`isModified, this`applyEnabled, this`changedOptions
      ensures isModified == state && applyEnabled == state
      ensures changedOptions == if state then old(changedOptions) else {}
    {
      isModified := state;
      applyEnabled := state;
      if !state {
        changedOptions := {};
      }
    }

    /** A widget bound to `option` in `section` was edited. */
    method HasBeenModified(section: Option<string>, option: string)
      modifies this`isModified, this`applyEnabled, this`changedOptions
      ensures isModified && applyEnabled
      ensures changedOptions == old(changedOptions) + {KeyOf(section, option)}
    {
      SetModified(true);
      changedOptions := changedOptions + {KeyOf(section, option)};
    }

    /** Writes back every line edit whose option changed (all of them when not loading from the configuration). */
    method SaveToConf()
      modifies this`store
      ensures store == Written(old(store), Saved(lineEdits, changedOptions, loadFromConfig, confSection))
    {
      var i := 0;
      while i < |lineEdits|
        invariant 0 <= i <= |lineEdits|
        invariant store == Written(old(store), Saved(lineEdits[..i], changedOptions, loadFromConfig, confSection))
      {
        var e := lineEdits[i];
        ghost var ws := Saved(lineEdits[..i], changedOptions, loadFromConfig, confSection);
        ghost var w := WriteOf(e, changedOptions, loadFromConfig, confSection);
        SavedStep(lineEdits, i, changedOptions, loadFromConfig, confSection);
        WrittenStep(old(store), ws, w);
        if ShouldSave(changedOptions, loadFromConfig, e.section, e.option) {
          SetOption(e.option, SavedValue(e.text, e.asList), e.section);
          assert store == Written(old(store), ws)[w[0].0 := w[0].1];
        } else {
          assert w == [];
        }
        i := i + 1;
      }
      assert lineEdits[..i] == lineEdits;
    }

    /** Is a change needing a restart among the changed options? */
    predicate RestartPending()
      reads this`restartOptions, this`changedOptions
    {
      exists k :: 0 <= k < |restartOptions| && restartOptions[k].0 in changedOptions
    }

    /** Shows the restart prompt once when a change needs it. */
    method PromptRestart()
      modifies this`restartPrompts
      ensures restartPrompts == old(restartPrompts) + if RestartPending() then 1 else 0
    {
      var k := 0;
      while k < |restartOptions|
        invariant 0 <= k <= |restartOptions|
        invariant forall j :: 0 <= j < k ==> restartOptions[j].0 !in changedOptions
        invariant restartPrompts == old(restartPrompts)
      {
        if restartOptions[k].0 in changedOptions {
          restartPrompts := restartPrompts + 1;
          return;
        }
        k := k + 1;
      }
    }

    /** `apply_changes`: saves, prompts for a restart at most once and clears the changes. */
    method ApplyChanges()
      modifies this`store, this`restartPrompts, this`isModified, this`applyEnabled, this`changedOptions
      ensures !old(isModified) ==> unchanged(this)
      ensures old(isModified) ==>
        store == Written(old(store), Saved(lineEdits, old(changedOptions), loadFromConfig, confSection))
        && restartPrompts == old(restartPrompts) + (if old(RestartPending()) then 1 else 0)
        && !isModified && !applyEnabled && changedOptions == {}
    {
      if isModified {
        SaveToConf();
        PromptRestart();
        SetModified(false);
      }
    }

    /** The text `load_from_conf` shows in a line edit, or the error reading it raises. */
    function LoadOne(e: LineEdit): (r: Result<string, string>)
      reads this`store
    {
      var v := Lookup(store, (SectionFor(confSection, e.section), e.option), e.default);
      if v.Err? then Err(v.error) else ShownText(v.value, e.asList)
    }

    /** The restart registrations of the first `n` line edits. */
    function Registered(ro: seq<(OptionKey, string)>, edits: seq<LineEdit>): (r: seq<(OptionKey, string)>)
      requires UniqueKeys(ro)
      ensures UniqueKeys(r)
      ensures forall k :: 0 <= k < |edits| && edits[k].restart ==> HasKey(r, KeyOf(edits[k].section, edits[k].option))
      decreases |edits|
    {
      if |edits| == 0 then ro
      else
        var init := Registered(ro, edits[..|edits| - 1]);
        var e := edits[|edits| - 1];
        var r := if e.restart then Put(init, KeyOf(e.section, e.option), e.caption) else init;
        assert forall k :: 0 <= k < |edits| - 1 ==> edits[..|edits| - 1][k] == edits[k];
        assert forall k :: HasKey(init, k) ==> HasKey(r, k) by {
          forall k | HasKey(init, k) ensures HasKey(r, k) {
            if e.restart && k != KeyOf(e.section, e.option) {
              assert Get(r, k) == Get(init, k);
            }
          }
        }
        r
    }

    /**
     * `load_from_conf` for the line edits: each shows the text of its
     * option, and options needing a restart are registered. Reading stops
     * at the first option that raises, whose index is returned.
     */
    method LoadFromConf() returns (failed: Option<nat>)
      requires Valid()
      modifies this`lineEdits, this`restartOptions
      ensures Valid()
      ensures |lineEdits| == |old(lineEdits)|
      ensures failed.Some? ==> failed.value < |lineEdits| && LoadOne(old(lineEdits)[failed.value]).Err?
      ensures var cut := if failed.Some? then failed.value else |lineEdits|;
        (forall k :: 0 <= k < cut ==> (LoadOne(old(lineEdits)[k]).Ok?
           && lineEdits[k] == old(lineEdits)[k].(text := LoadOne(old(lineEdits)[k]).value)))
        && (forall k :: cut <= k < |lineEdits| ==> lineEdits[k] == old(lineEdits)[k])
        && restartOptions == Registered(old(restartOptions), old(lineEdits)[..cut])
    {
      var i := 0;
      while i < |lineEdits|
        invariant 0 <= i <= |lineEdits| == |old(lineEdits)|
        invariant UniqueKeys(restartOptions) && Valid()
        invariant forall k :: 0 <= k < i ==> (LoadOne(old(lineEdits)[k]).Ok?
          && lineEdits[k] == old(lineEdits)[k].(text := LoadOne(old(lineEdits)[k]).value))
        invariant forall k :: i <= k < |lineEdits| ==> lineEdits[k] == old(lineEdits)[k]
        invariant restartOptions == Registered(old(restartOptions), old(lineEdits)[..i])
      {
        var e := lineEdits[i];
        var shown := LoadOne(e);
        if shown.Err? {
          return Some(i);
        }
        lineEdits := lineEdits[i := e.(text := shown.value)];
        assert old(lineEdits)[..i + 1][..i] == old(lineEdits)[..i];
        if e.restart {
          restartOptions := Put(restartOptions, KeyOf(e.section, e.option), e.caption);
        }
        i := i + 1;
      }
      return None;
    }

    /**
     * `create_lineedit`: records a cross-section option, then refuses a
     * validation callback given without a reason; otherwise adds the line
     * edit and returns its index.
     */
    method CreateLineEdit(caption: string, option: string, default: Option<Value>, section: Option<string>,
                          asList: bool, validateCallback: bool, validateReason: Option<string>, restart: bool)
      returns (r: Result<nat, string>)
      requires Valid()
      modifies this`lineEdits, this`crossSectionOptions
      ensures Valid()
      ensures r.Err? <==> validateCallback && (validateReason.None? || validateReason.value == "")
      ensures r.Err? ==> r.error == "RuntimeError" && lineEdits == old(lineEdits)
      ensures r.Ok? ==> (r.value == |old(lineEdits)|
        && lineEdits == old(lineEdits) + [LineEdit(section, option, default, asList, "", true, None, restart, caption)])
      ensures section.Some? && section != confSection ==>
        crossSectionOptions == Put(old(crossSectionOptions), option, section.value)
      ensures !(section.Some? && section != confSection) ==> crossSectionOptions == old(crossSectionOptions)
    {
      if section.Some? && section != confSection {
        crossSectionOptions := Put(crossSectionOptions, option, section.value);
      }
      if validateCallback && (validateReason.None? || validateReason.value == "") {
        return Err("RuntimeError");
      }
      lineEdits := lineEdits + [LineEdit(section, option, default, asList, "", true, None, restart, caption)];
      r := Ok(|lineEdits| - 1);
    }

    /** `create_browsedir`/`create_browsefile` attach a validator to the line edit they create. */
    method SetValidator(index: nat, validator: nat, message: string)
      requires index < |lineEdits|
      modifies this`lineEdits
      ensures lineEdits == old(lineEdits)[index := old(lineEdits)[index].(validator := Some((validator, message)))]
    {
      lineEdits := lineEdits[index := lineEdits[index].(validator := Some((validator, message)))];
    }

    /**
     * `is_valid`: the first enabled line edit whose validator rejects its
     * text makes the page invalid and its message is shown; otherwise the
     * tabs' results are combined, asking no tab after the first that fails.
     */
    method IsValid(accepts: (nat, string) -> bool, tabs: seq<bool>)
      returns (valid: bool, message: Option<string>, asked: nat)
      ensures valid <==> (forall k :: 0 <= k < |lineEdits| ==> !Rejects(lineEdits[k], accepts))
                         && (forall k :: 0 <= k < |tabs| ==> tabs[k])
      ensures message.Some? <==> FirstRejected(lineEdits, accepts, 0).Some?
      ensures message.Some? ==>
        var e := lineEdits[FirstRejected(lineEdits, accepts, 0).value];
        message.value == e.validator.value.1 + ":<br><b>" + e.text + "</b>" && asked == 0
      ensures message.None? ==> asked == TabsAsked(tabs)
    {
      var i := 0;
      while i < |lineEdits|
        invariant 0 <= i <= |lineEdits|
        invariant forall k :: 0 <= k < i ==> !Rejects(lineEdits[k], accepts)
        invariant FirstRejected(lineEdits, accepts, 0) == FirstRejected(lineEdits, accepts, i)
      {
        var e := lineEdits[i];
        if e.validator.Some? && e.enabled && !accepts(e.validator.value.0, e.text) {
          return false, Some(e.validator.value.1 + ":<br><b>" + e.text + "</b>"), 0;
        }
        i := i + 1;
      }
      message := None;
      valid := true;
      asked := 0;
      var j := 0;
      while j < |tabs|
        invariant 0 <= j <= |tabs| && asked == j
        invariant forall k :: 0 <= k < j ==> tabs[k]
        invariant TabsAsked(tabs) == j + TabsAsked(tabs[j..])
      {
        assert tabs[j..][1..] == tabs[j + 1..];
        valid := valid && tabs[j];
        asked := asked + 1;
        if !valid {
          return;
        }
        j := j + 1;
      }
    }
  }
}
