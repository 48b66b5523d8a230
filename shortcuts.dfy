/**
 * The keyboard-shortcut preferences: the table of (context, name, key)
 * records, the editor dialog in which a new key sequence is typed stroke by
 * stroke and graded, and the conflict searches over the table.
 *
 * A key sequence is text such as "Ctrl+Shift+S, Ctrl+P": strokes joined
 * with ", ". Qt's `QKeySequence.matches` is modelled on the strokes: `a`
 * matches `b` (exactly or partially) when the strokes of `a` are a prefix
 * of the strokes of `b`. A sequence is empty when its text is empty.
 */
module Shortcuts {
  import opened Wrappers
  import opened Text

  /** Keys accepted without a modifier in every context: F1..F35, Del and Esc. */
  const SINGLE_KEYS: seq<string> :=
    ["F1", "F2", "F3", "F4", "F5", "F6", "F7", "F8", "F9", "F10", "F11", "F12", "F13",
     "F14", "F15", "F16", "F17", "F18", "F19", "F20", "F21", "F22", "F23", "F24", "F25",
     "F26", "F27", "F28", "F29", "F30", "F31", "F32", "F33", "F34", "F35", "Del", "Esc"]

  /** Keys accepted without a modifier in the editor context. */
  const EDITOR_SINGLE_KEYS: seq<string> :=
    SINGLE_KEYS + ["Home", "End", "Ins", "Enter", "Return", "Backspace", "Tab",
                   "PageUp", "PageDown", "Clear", "Pause", "Left", "Up", "Right", "Down"]

  /** Forbidden key sequences (none at present). */
  const BLACKLIST: set<string> := {}

  /** A key sequence holds at most this many strokes. */
  const MAX_STROKES := 4

  // Qt key codes of the lone modifier keys and of an unknown key.
  const KEY_SHIFT := 0x0100_0020
  const KEY_CONTROL := 0x0100_0021
  const KEY_META := 0x0100_0022
  const KEY_ALT := 0x0100_0023
  const KEY_UNKNOWN := 0x01ff_ffff

  // Columns of the shortcuts table.
  const CONTEXT := 0
  const NAME := 1
  const SEQUENCE := 2
  const SEARCH_SCORE := 3

  /** The grade of a new key sequence shown by the editor dialog. */
  datatype Warning = NoWarning | SequenceEmpty | SequenceConflict | InvalidKey | InBlacklist {
    function Code(): (c: nat)
      ensures c <= 4
      ensures c == 0 <==> this == NoWarning
    {
      match this
      case NoWarning => 0
      case SequenceEmpty => 1
      case SequenceConflict => 2
      case InvalidKey => 3
      case InBlacklist => 4
    }
  }

  /** The strokes of a key sequence text. */
  function Strokes(keys: string): (r: seq<string>)
    ensures |r| >= 1
  {
    Split(keys, ", ")
  }

  predicate IsPrefix(p: seq<string>, q: seq<string>) {
    |p| <= |q| && q[..|p|] == p
  }

  /** `QKeySequence(a).matches(QKeySequence(b)) != NoMatch`. */
  predicate Matches(a: string, b: string) {
    IsPrefix(Strokes(a), Strokes(b))
  }

  /** The text of the sequence held by the editor's stroke buffer. */
  function NewSequence(qsequences: seq<string>): string {
    Join(qsequences, ", ")
  }

  /** Strokes without ", " in them are the strokes of the sequence text they make up. */
  lemma NewSequenceStrokes(qsequences: seq<string>)
    requires |qsequences| >= 1
    requires forall k :: 0 <= k < |qsequences| ==> !Contains(qsequences[k], ", ")
    ensures Strokes(NewSequence(qsequences)) == qsequences
  {
    forall k | 0 <= k < |qsequences| ensures Separable(qsequences[k], ", ") {
      CommaSpaceSeparable(qsequences[k]);
    }
    SplitJoin(qsequences, ", ");
  }

  /** The sequence text is pure ASCII, so it can be typed as a shortcut. */
  function CheckAscii(qsequences: seq<string>): (r: bool)
    ensures r <==> forall k :: 0 <= k < |qsequences| ==> IsAscii(qsequences[k])
  {
    assert IsAscii(", ");
    JoinAscii(qsequences, ", ");
    IsAscii(NewSequence(qsequences))
  }

  predicate HasModifier(keystr: string) {
    Contains(keystr, "Ctrl") || Contains(keystr, "Alt")
    || Contains(keystr, "Shift") || Contains(keystr, "Meta")
  }

  function ValidSingleKeys(context: string): seq<string> {
    if context == "editor" then EDITOR_SINGLE_KEYS else SINGLE_KEYS
  }

  /** The first stroke either carries a modifier or is a key allowed alone in `context`. */
  function CheckSingleKey(context: string, qsequences: seq<string>): bool {
    if |qsequences| == 0 then true
    else
      var keystr := qsequences[0];
      if HasModifier(keystr) then true
      else keystr in ValidSingleKeys(context)
  }

  /** Whatever a first stroke may be elsewhere, it may also be in the editor. */
  lemma EditorAcceptsMore(context: string, qsequences: seq<string>)
    requires CheckSingleKey(context, qsequences)
    ensures CheckSingleKey("editor", qsequences)
  {
    if |qsequences| > 0 && !HasModifier(qsequences[0]) && context != "editor" {
      var i :| 0 <= i < |SINGLE_KEYS| && SINGLE_KEYS[i] == qsequences[0];
      assert EDITOR_SINGLE_KEYS[i] == qsequences[0];
    }
  }

  /** A lone letter key, with no modifier, is never accepted as a first stroke. */
  lemma LoneLetterRejected(context: string, c: char, rest: seq<string>)
    requires 'A' <= c <= 'Z'
    ensures !CheckSingleKey(context, [[c]] + rest)
  {
    var q := [[c]] + rest;
    assert q[0] == [c];
    assert !HasModifier([c]);
    SingleKeysLong();
    assert [c] !in ValidSingleKeys(context);
  }

  /** Every key allowed alone has a name of two characters or more. */
  lemma SingleKeysLong()
    ensures forall i :: 0 <= i < |SINGLE_KEYS| ==> |SINGLE_KEYS[i]| >= 2
    ensures forall i :: 0 <= i < |EDITOR_SINGLE_KEYS| ==> |EDITOR_SINGLE_KEYS[i]| >= 2
  {
    var extra := ["Home", "End", "Ins", "Enter", "Return", "Backspace", "Tab",
                  "PageUp", "PageDown", "Clear", "Pause", "Left", "Up", "Right", "Down"];
    assert forall i :: 0 <= i < |SINGLE_KEYS| ==> |SINGLE_KEYS[i]| >= 2;
    assert forall i :: 0 <= i < |extra| ==> |extra[i]| >= 2;
    assert EDITOR_SINGLE_KEYS == SINGLE_KEYS + extra;
  }

  /** One row of the shortcuts table. */
  class Shortcut {
    /** Position after sorting, set when the table is loaded. */
    var index: int
    const context: string
    const name: string
    var key: string
    const pluginName: Option<string>

    constructor(context: string, name: string, key: string, pluginName: Option<string>)
      ensures this.context == context && this.name == name && this.key == key
      ensures this.pluginName == pluginName && index == 0
    {
      this.index := 0;
      this.context := context;
      this.name := name;
      this.key := key;
      this.pluginName := pluginName;
    }
  }

  /** The dialog in which a new key sequence for the shortcut (context, name) is typed. */
  class ShortcutEditor {
    const context: string
    const name: string
    /** All shortcuts of the table (the same objects). */
    const shortcuts: seq<Shortcut>
    const currentSequence: string
    /** The strokes typed so far. */
    var qsequences: seq<string>
    var warning: Warning
    var conflicts: seq<Shortcut>
    var okEnabled: bool
    /** The dialog was closed with Ok. */
    var accepted: bool

    predicate Bounded()
      reads this
    {
      |qsequences| <= MAX_STROKES
    }

    /** Is `s` in the way of the sequence being typed? */
    predicate IsConflict(s: Shortcut)
      reads this`qsequences, s
    {
      var typed := NewSequence(qsequences);
      s.key != ""
      && (s.context, s.name) != (context, name)
      && (s.context == context || s.context == "_" || context == "_")
      && (Matches(s.key, typed) || Matches(typed, s.key))
    }

    /** The shortcuts of `ss`, in order, that are in the way of the typed sequence. */
    function ConflictsIn(ss: seq<Shortcut>): (r: seq<Shortcut>)
      reads this`qsequences, ss
      ensures forall k :: 0 <= k < |r| ==> r[k] in ss && IsConflict(r[k])
      ensures forall k :: 0 <= k < |ss| && IsConflict(ss[k]) ==> ss[k] in r
      decreases |ss|
    {
      if |ss| == 0 then []
      else
        var last := ss[|ss| - 1];
        var init := ss[..|ss| - 1];
        assert forall k :: 0 <= k < |init| ==> init[k] == ss[k];
        ConflictsIn(init) + (if IsConflict(last) then [last] else [])
    }

    /** The shortcuts in the way of the typed sequence, in table order; none while nothing is typed. */
    function Pending(): seq<Shortcut>
      reads this`qsequences, shortcuts
    {
      if |qsequences| == 0 then [] else ConflictsIn(shortcuts)
    }

    /**
     * The warning, conflict list and Ok button agree with the typed strokes:
     * the warning is the first that applies of empty, conflict, forbidden,
     * invalid (first stroke or non-ASCII text) and valid, and Ok is enabled
     * exactly for a valid or a conflicting sequence.
     */
    predicate Graded()
      reads this, shortcuts
    {
      var typed := NewSequence(qsequences);
      && conflicts == Pending()
      && warning == (
        if |qsequences| == 0 then SequenceEmpty
        else if conflicts != [] then SequenceConflict
        else if typed in BLACKLIST then InBlacklist
        else if !CheckSingleKey(context, qsequences) || !CheckAscii(qsequences) then InvalidKey
        else NoWarning)
      && (okEnabled <==> warning == NoWarning || warning == SequenceConflict)
    }

    constructor(context: string, name: string, sequence: string, shortcuts: seq<Shortcut>)
      ensures this.context == context && this.name == name && this.shortcuts == shortcuts
      ensures currentSequence == (if sequence == "" then "<None>" else sequence)
      ensures qsequences == [] && !accepted && Graded() && Bounded()
      ensures warning == SequenceEmpty && !okEnabled
    {
      this.context := context;
      this.name := name;
      this.shortcuts := shortcuts;
      this.currentSequence := if sequence == "" then "<None>" else sequence;
      this.qsequences := [];
      this.accepted := false;
      new;
      UpdateWarning();
    }

    /** The shortcuts in the way of the typed sequence; none while nothing is typed. */
    method CheckConflicts() returns (found: seq<Shortcut>)
      ensures found == Pending()
      ensures |qsequences| == 0 ==> found == []
      ensures forall s :: s in found ==> s in shortcuts && s.key != ""
      ensures forall s :: s in found ==> (s.context, s.name) != (context, name)
      ensures forall s :: s in found ==> s.context == context || s.context == "_" || context == "_"
      ensures |qsequences| > 0 ==> forall s :: s in shortcuts && IsConflict(s) ==> s in found
    {
      found := [];
      if |qsequences| == 0 {
        return;
      }
      var typed := NewSequence(qsequences);
      var i := 0;
      while i < |shortcuts|
        invariant 0 <= i <= |shortcuts|
        invariant found == ConflictsIn(shortcuts[..i])
      {
        var shortcut := shortcuts[i];
        assert shortcuts[..i + 1][..i] == shortcuts[..i];
        if shortcut.key == "" {
          i := i + 1;
          continue;
        }
        if (shortcut.context, shortcut.name) == (context, name) {
          i := i + 1;
          continue;
        }
        if shortcut.context == context || shortcut.context == "_" || context == "_" {
          if Matches(shortcut.key, typed) || Matches(typed, shortcut.key) {
            found := found + [shortcut];
          }
        }
        i := i + 1;
      }
      assert shortcuts[..i] == shortcuts;
    }

    /** Recomputes the conflicts, the warning and the Ok button from the typed strokes. */
    method UpdateWarning()
      modifies this
      ensures qsequences == old(qsequences) && accepted == old(accepted)
      ensures Graded()
    {
      var found := CheckConflicts();
      var typed := NewSequence(qsequences);
      var w: Warning;
      if |qsequences| == 0 {
        w := SequenceEmpty;
      } else if found != [] {
        w := SequenceConflict;
      } else if typed in BLACKLIST {
        w := InBlacklist;
      } else if !CheckSingleKey(context, qsequences) || !CheckAscii(qsequences) {
        w := InvalidKey;
      } else {
        w := NoWarning;
      }
      warning := w;
      conflicts := found;
      okEnabled := w == NoWarning || w == SequenceConflict;
    }

    /**
     * A key press: an unknown key, a lone modifier or a press when four
     * strokes are already held changes nothing; any other key appends its
     * stroke text `keystr`.
     */
    method KeyPress(eventKey: int, keystr: string)
      modifies this
      ensures var ignored := eventKey == 0 || eventKey == KEY_UNKNOWN
                || |old(qsequences)| == MAX_STROKES
                || eventKey in {KEY_CONTROL, KEY_SHIFT, KEY_ALT, KEY_META};
              if ignored then
                qsequences == old(qsequences) && warning == old(warning)
                && conflicts == old(conflicts) && okEnabled == old(okEnabled)
              else
                qsequences == old(qsequences) + [keystr] && Graded()
      ensures accepted == old(accepted)
      ensures old(Bounded()) ==> Bounded()
    {
      if eventKey == 0 || eventKey == KEY_UNKNOWN {
        return;
      }
      if |qsequences| == MAX_STROKES {
        return;
      }
      if eventKey in {KEY_CONTROL, KEY_SHIFT, KEY_ALT, KEY_META} {
        return;
      }
      qsequences := qsequences + [keystr];
      UpdateWarning();
    }

    /** The last stroke is removed, if there is one. */
    method BackNewSequence()
      modifies this
      ensures |old(qsequences)| == 0 ==> qsequences == []
      ensures |old(qsequences)| > 0 ==> qsequences == old(qsequences)[..|old(qsequences)| - 1]
      ensures accepted == old(accepted) && Graded()
      ensures old(Bounded()) ==> Bounded()
    {
      if |qsequences| > 0 {
        qsequences := qsequences[..|qsequences| - 1];
      }
      UpdateWarning();
    }

    method ClearNewSequence()
      modifies this
      ensures qsequences == [] && accepted == old(accepted) && Graded() && Bounded()
      ensures warning == SequenceEmpty && conflicts == [] && !okEnabled
    {
      qsequences := [];
      UpdateWarning();
    }

    /** The shortcut is left without a key sequence and the dialog is accepted. */
    method UnbindShortcut()
      modifies this
      ensures qsequences == [] && accepted && Bounded()
      ensures warning == old(warning) && conflicts == old(conflicts) && okEnabled == old(okEnabled)
    {
      qsequences := [];
      accepted := true;
    }

    /**
     * As written: the buffer receives the strokes of the text as key
     * sequence objects, not as stroke texts, so the regrading that follows
     * fails at once, when it joins the buffer into the typed text, with a
     * `TypeError`. The buffer has changed; the warning, the conflicts and
     * the Ok button have not.
     */
    method SetSequenceFromStr(sequence: string) returns (r: Result<(), string>)
      modifies this
      ensures r == Err("TypeError")
      ensures qsequences == Strokes(sequence)
      ensures warning == old(warning) && conflicts == old(conflicts) && okEnabled == old(okEnabled)
      ensures accepted == old(accepted)
    {
      qsequences := Strokes(sequence);
      return Err("TypeError");
    }

    /**
     * As evidently intended: the strokes are taken from a sequence text as
     * stroke texts, the typed text is then that same text, and the dialog
     * is regraded.
     */
    method SetSequenceFromStrIntended(sequence: string)
      modifies this
      ensures qsequences == Strokes(sequence)
      ensures NewSequence(qsequences) == sequence
      ensures accepted == old(accepted) && Graded()
    {
      qsequences := Strokes(sequence);
      JoinSplit(sequence, ", ");
      UpdateWarning();
    }

    /**
     * The strokes are taken from the configured default sequence; without a
     * default, or with an empty one, the shortcut is unbound instead.
     */
    method SetSequenceToDefault(default: Option<string>)
      modifies this
      ensures default.Some? && default.value != "" ==>
        qsequences == Strokes(default.value) && accepted == old(accepted) && Graded()
      ensures default.None? || default.value == "" ==>
        qsequences == [] && accepted
        && warning == old(warning) && conflicts == old(conflicts) && okEnabled == old(okEnabled)
    {
      if default.Some? && default.value != "" {
        qsequences := Strokes(default.value);
        UpdateWarning();
      } else {
        UnbindShortcut();
      }
    }

    /** Ok on a conflicting sequence: every conflicting shortcut loses its key. */
    method AcceptOverride()
      modifies this, shortcuts
      ensures forall s :: s in shortcuts ==>
        s.key == (if s in old(Pending()) then "" else old(s.key))
      ensures forall s :: s in shortcuts ==> s.index == old(s.index)
      ensures qsequences == old(qsequences) && accepted
    {
      var found := CheckConflicts();
      ClearKeys(found);
      accepted := true;
    }
  }

  /** The loop of `accept_override`: each given shortcut loses its key. */
  method ClearKeys(found: seq<Shortcut>)
    modifies found
    ensures forall s :: s in found ==> s.key == "" && s.index == old(s.index)
  {
    ghost var cleared: set<Shortcut> := {};
    var i := 0;
    while i < |found|
      invariant 0 <= i <= |found|
      invariant forall k :: 0 <= k < i ==> found[k] in cleared
      invariant forall s :: s in cleared ==> s in found && s.key == ""
      invariant forall s :: s in found ==> s.index == old(s.index)
    {
      found[i].key := "";
      cleared := cleared + {found[i]};
      i := i + 1;
    }
  }

  /** The Ok button is enabled exactly when something is typed and it is either in conflict or valid. */
  lemma OkEnabledMeaning(e: ShortcutEditor)
    requires e.Graded()
    ensures e.okEnabled <==>
      |e.qsequences| > 0
      && (e.conflicts != []
          || (NewSequence(e.qsequences) !in BLACKLIST
              && CheckSingleKey(e.context, e.qsequences) && CheckAscii(e.qsequences)))
  {
  }

  /**
   * As written, setting the sequence of a new dialog from any text fails and
   * leaves the dialog stale: strokes are held, yet it is still graded as
   * empty, with Ok disabled.
   */
  method SetFromStrLeavesStale(sequence: string, shortcuts: seq<Shortcut>) returns (failed: bool, stale: bool)
    ensures failed && stale
  {
    var e := new ShortcutEditor("editor", "copy", "", shortcuts);
    var r := e.SetSequenceFromStr(sequence);
    failed := r.Err?;
    stale := |e.qsequences| >= 1 && e.warning == SequenceEmpty && !e.okEnabled && !e.Graded();
  }

  /** The table model: the shortcut rows shown in the preferences. */
  class ShortcutsModel {
    var shortcuts: seq<Shortcut>

    constructor()
      ensures shortcuts == []
    {
      shortcuts := [];
    }

    /**
     * An edit of a cell: accepted for a valid index on an existing row; only
     * the SEQUENCE column stores the text, as the row's key.
     */
    method SetData(valid: bool, row: int, column: int, text: string) returns (ok: bool)
      modifies shortcuts
      ensures ok <==> valid && 0 <= row < |shortcuts|
      ensures forall s :: s in shortcuts ==> s.index == old(s.index)
      ensures forall s :: s in shortcuts ==>
        s.key == (if ok && column == SEQUENCE && s == shortcuts[row] then text else old(s.key))
    {
      if valid && 0 <= row < |shortcuts| {
        var shortcut := shortcuts[row];
        if column == SEQUENCE {
          shortcut.key := text;
        }
        return true;
      }
      return false;
    }
  }

  /** A shortcut declared by a plugin. */
  datatype ShortcutData = ShortcutData(context: string, name: string, pluginName: Option<string>)

  /** A shortcut stored in the configuration: context, name and key text. */
  datatype ConfShortcut = ConfShortcut(context: string, name: string, keystr: string)

  /** The values held by a table row, without its index. */
  datatype Row = Row(context: string, name: string, key: string, pluginName: Option<string>)

  /** Declared shortcuts by lower-cased (context, name); a later declaration wins. */
  function DataMap(data: seq<ShortcutData>): (m: map<(string, string), Option<string>>)
    ensures forall k :: k in m <==> exists d :: d in data && k == (Lower(d.context), Lower(d.name))
    ensures forall k :: k in m ==> Lower(k.0) == k.0 && Lower(k.1) == k.1
    ensures forall k :: k in m ==> LastDeclares(data, k, m[k])
    decreases |data|
  {
    if |data| == 0 then map[]
    else
      var d := data[|data| - 1];
      var init := data[..|data| - 1];
      assert forall x :: x in data <==> x in init || x == d;
      assert data == init + [d];
      LastDeclaresExtend(init, d, DataMap(init));
      LowerIdempotent(d.context);
      LowerIdempotent(d.name);
      DataMap(init)[(Lower(d.context), Lower(d.name)) := d.pluginName]
  }

  /** The lowered (context, name) pair under which a declaration is looked up. */
  function Pair(d: ShortcutData): (string, string) {
    (Lower(d.context), Lower(d.name))
  }

  /**
   * `plugin` is the plugin name of the last declaration in `data` whose
   * lowered pair is `k`: a later declaration of the same pair replaces an
   * earlier one.
   */
  predicate LastDeclares(data: seq<ShortcutData>, k: (string, string), plugin: Option<string>) {
    exists j :: 0 <= j < |data| && Pair(data[j]) == k && data[j].pluginName == plugin
      && forall j' :: j < j' < |data| ==> Pair(data[j']) != k
  }

  /** One more declaration replaces the plugin name of its pair and keeps the others. */
  lemma LastDeclaresExtend(init: seq<ShortcutData>, d: ShortcutData, m: map<(string, string), Option<string>>)
    requires forall k :: k in m ==> LastDeclares(init, k, m[k])
    ensures var m' := m[Pair(d) := d.pluginName];
      forall k :: k in m' ==> LastDeclares(init + [d], k, m'[k])
  {
    var data := init + [d];
    var m' := m[Pair(d) := d.pluginName];
    forall k | k in m' ensures LastDeclares(data, k, m'[k]) {
      if k == Pair(d) {
        assert data[|init|] == d;
      } else {
        var j :| 0 <= j < |init| && Pair(init[j]) == k && init[j].pluginName == m[k]
          && forall j' :: j < j' < |init| ==> Pair(init[j']) != k;
        assert data[j] == init[j];
        forall j' | j < j' < |data| ensures Pair(data[j']) != k {
          if j' < |init| {
            assert data[j'] == init[j'];
          }
        }
      }
    }
  }

  /** The configured shortcuts that a plugin declares, in configuration order. */
  function Kept(m: map<(string, string), Option<string>>, conf: seq<ConfShortcut>): (r: seq<Row>)
    requires forall k :: k in m ==> Lower(k.0) == k.0 && Lower(k.1) == k.1
    ensures |r| <= |conf|
    ensures forall x :: x in r ==>
      (exists c :: c in conf && (c.context, c.name) in m
         && x == Row(c.context, c.name, c.keystr, m[(c.context, c.name)]))
    decreases |conf|
  {
    if |conf| == 0 then []
    else
      var c := conf[|conf| - 1];
      var rest := Kept(m, conf[..|conf| - 1]);
      assert forall x :: x in conf[..|conf| - 1] ==> x in conf;
      if (c.context, c.name) in m then
        rest + [Row(Lower(c.context), Lower(c.name), c.keystr, m[(Lower(c.context), Lower(c.name))])]
      else rest
  }

  function SortKey(r: Row): string {
    r.context + r.name
  }

  /** Python's `a <= b` on strings: lexicographic order of code points. */
  predicate LexLe(a: string, b: string)
    decreases |a|
  {
    |a| == 0 || (|b| > 0 && (a[0] < b[0] || (a[0] == b[0] && LexLe(a[1..], b[1..]))))
  }

  lemma {:induction false} LexLeTotal(a: string, b: string)
    ensures LexLe(a, b) || LexLe(b, a)
    decreases |a|
  {
    if |a| > 0 && |b| > 0 && a[0] == b[0] {
      LexLeTotal(a[1..], b[1..]);
    }
  }

  predicate SortedRows(rows: seq<Row>) {
    forall i :: 0 <= i < |rows| - 1 ==> LexLe(SortKey(rows[i]), SortKey(rows[i + 1]))
  }

  /** Puts `x` before the first row it does not sort after. */
  function Insert(x: Row, rows: seq<Row>): (r: seq<Row>)
    requires SortedRows(rows)
    ensures SortedRows(r)
    ensures multiset(r) == multiset(rows) + multiset{x}
    ensures |r| > 0 && (r[0] == x || (|rows| > 0 && r[0] == rows[0]))
    decreases |rows|
  {
    if |rows| == 0 then [x]
    else if LexLe(SortKey(x), SortKey(rows[0])) then [x] + rows
    else
      SortedTail(rows);
      var tail := Insert(x, rows[1..]);
      LexLeTotal(SortKey(x), SortKey(rows[0]));
      SortedCons(rows[0], tail);
      assert rows == [rows[0]] + rows[1..];
      [rows[0]] + tail
  }

  lemma SortedTail(rows: seq<Row>)
    requires |rows| > 0 && SortedRows(rows)
    ensures SortedRows(rows[1..])
  {
    forall i | 0 <= i < |rows| - 2 ensures LexLe(SortKey(rows[1..][i]), SortKey(rows[1..][i + 1])) {
      assert rows[1..][i] == rows[i + 1] && rows[1..][i + 1] == rows[i + 2];
    }
  }

  lemma SortedCons(a: Row, tail: seq<Row>)
    requires SortedRows(tail) && |tail| > 0 && LexLe(SortKey(a), SortKey(tail[0]))
    ensures SortedRows([a] + tail)
  {
    var r := [a] + tail;
    forall i | 0 <= i < |r| - 1 ensures LexLe(SortKey(r[i]), SortKey(r[i + 1])) {
      if i > 0 {
        assert r[i] == tail[i - 1] && r[i + 1] == tail[i];
      }
    }
  }

  /** Python's `sorted(rows, key=lambda item: item.context + item.name)`. */
  function SortRows(rows: seq<Row>): (r: seq<Row>)
    ensures SortedRows(r)
    ensures multiset(r) == multiset(rows)
    decreases |rows|
  {
    if |rows| == 0 then []
    else
      assert rows == [rows[0]] + rows[1..];
      Insert(rows[0], SortRows(rows[1..]))
  }

  /** The rows the table shows after loading, in table order. */
  function Loaded(data: seq<ShortcutData>, conf: seq<ConfShortcut>): seq<Row> {
    SortRows(Kept(DataMap(data), conf))
  }

  /**
   * Every loaded row comes from a configured shortcut whose context and name,
   * exactly as configured, a plugin declares; both are therefore already
   * lower-case.
   */
  lemma LoadedFromConf(data: seq<ShortcutData>, conf: seq<ConfShortcut>, x: Row)
    requires x in Loaded(data, conf)
    ensures Lower(x.context) == x.context && Lower(x.name) == x.name
    ensures exists c :: c in conf && x.context == c.context && x.name == c.name && x.key == c.keystr
    ensures exists d :: d in data && x.context == Lower(d.context) && x.name == Lower(d.name)
    ensures LastDeclares(data, (x.context, x.name), x.pluginName)
  {
    var m := DataMap(data);
    var kept := Kept(m, conf);
    assert x in multiset(Loaded(data, conf));
    assert x in kept;
    var c :| c in conf && (c.context, c.name) in m
      && x == Row(c.context, c.name, c.keystr, m[(c.context, c.name)]);
    assert LastDeclares(data, (c.context, c.name), m[(c.context, c.name)]);
  }

  /** Every configured shortcut whose context and name are registered is kept. */
  lemma {:induction false} KeptComplete(m: map<(string, string), Option<string>>, conf: seq<ConfShortcut>, c: ConfShortcut)
    requires forall k :: k in m ==> Lower(k.0) == k.0 && Lower(k.1) == k.1
    requires c in conf && (c.context, c.name) in m
    ensures Row(c.context, c.name, c.keystr, m[(c.context, c.name)]) in Kept(m, conf)
    decreases |conf|
  {
    var last := conf[|conf| - 1];
    var init := conf[..|conf| - 1];
    assert conf == init + [last];
    if c != last {
      assert c in init;
      KeptComplete(m, init, c);
    }
  }

  /**
   * Every configured shortcut whose context and name a plugin declares
   * (after lowercasing) is loaded, with its configured key and the plugin
   * of the last declaration.
   */
  lemma LoadedComplete(data: seq<ShortcutData>, conf: seq<ConfShortcut>, c: ConfShortcut)
    requires c in conf && (c.context, c.name) in DataMap(data)
    ensures Row(c.context, c.name, c.keystr, DataMap(data)[(c.context, c.name)]) in Loaded(data, conf)
    ensures LastDeclares(data, (c.context, c.name), DataMap(data)[(c.context, c.name)])
  {
    var m := DataMap(data);
    KeptComplete(m, conf, c);
    var x := Row(c.context, c.name, c.keystr, m[(c.context, c.name)]);
    assert x in multiset(Kept(m, conf));
    assert x in multiset(Loaded(data, conf));
  }

  /** The loaded rows are in ascending order of context + name and are the kept ones, reordered. */
  lemma LoadedSortedPermutation(data: seq<ShortcutData>, conf: seq<ConfShortcut>)
    ensures SortedRows(Loaded(data, conf))
    ensures multiset(Loaded(data, conf)) == multiset(Kept(DataMap(data), conf))
  {
  }

  function RowOf(s: Shortcut): Row
    reads s
  {
    Row(s.context, s.name, s.key, s.pluginName)
  }

  /** `(row + 1) % rows`: the next row, wrapping from the last to the first. */
  function NextRow(row: int, rows: int): (r: int)
    ensures 0 <= row < rows ==> 0 <= r < rows && r == (row + 1) % rows
  {
    if row + 1 == rows then 0 else row + 1
  }

  /** The previous row, wrapping from the first to the last. */
  function PreviousRow(row: int, rows: int): (r: int)
    ensures 0 <= row < rows ==> 0 <= r < rows && r == (row - 1) % rows
  {
    if row == 0 then rows - 1 else row - 1
  }

  lemma RowNavigationInverse(row: int, rows: int)
    requires 0 <= row < rows
    ensures PreviousRow(NextRow(row, rows), rows) == row
    ensures NextRow(PreviousRow(row, rows), rows) == row
  {
  }

  /** Two shortcuts of the table clash: distinct rows, one non-empty key, overlapping contexts. */
  predicate Clash(a: Shortcut, b: Shortcut)
    reads a, b
  {
    a.key != "" && a != b && b.key == a.key
    && (a.context == b.context || a.context == "_" || b.context == "_")
  }

  /** The clashes of row `i` with rows `i + 1` up to `j - 1`, in order. */
  function RowClashes(ss: seq<Shortcut>, i: nat, j: nat): seq<(Shortcut, Shortcut)>
    requires i < |ss| && j <= |ss|
    reads ss
    decreases j
  {
    if j <= i + 1 then []
    else RowClashes(ss, i, j - 1) + (if Clash(ss[i], ss[j - 1]) then [(ss[i], ss[j - 1])] else [])
  }

  /** The clashes of rows 0 up to `n - 1` with the rows after them, in order. */
  function TableClashes(ss: seq<Shortcut>, n: nat): seq<(Shortcut, Shortcut)>
    requires n <= |ss|
    reads ss
  {
    if n == 0 then [] else TableClashes(ss, n - 1) + RowClashes(ss, n - 1, |ss|)
  }

  lemma {:induction false} RowClashesMembers(ss: seq<Shortcut>, i: nat, j: nat, p: (Shortcut, Shortcut))
    requires i < |ss| && j <= |ss|
    ensures p in RowClashes(ss, i, j) <==>
      exists k :: i < k < j && p == (ss[i], ss[k]) && Clash(ss[i], ss[k])
    decreases j
  {
    if j > i + 1 {
      RowClashesMembers(ss, i, j - 1, p);
    }
  }

  /** A clashing pair (i, j) with i < n is among the pairs found over the first n rows. */
  lemma {:induction false} TableClashesHas(ss: seq<Shortcut>, n: nat, i: nat, j: nat)
    requires n <= |ss| && i < n && i < j < |ss| && Clash(ss[i], ss[j])
    ensures (ss[i], ss[j]) in TableClashes(ss, n)
  {
    var m := n - 1;
    assert TableClashes(ss, n) == TableClashes(ss, m) + RowClashes(ss, m, |ss|);
    if i < m {
      TableClashesHas(ss, m, i, j);
    } else {
      RowClashesMembers(ss, m, |ss|, (ss[i], ss[j]));
    }
  }

  /** Every pair found over the first n rows is a clashing pair (i, j) with i < n. */
  lemma {:induction false} TableClashesFrom(ss: seq<Shortcut>, n: nat, p: (Shortcut, Shortcut))
    requires n <= |ss| && p in TableClashes(ss, n)
    ensures exists i, j :: 0 <= i < n && i < j < |ss| && p == (ss[i], ss[j]) && Clash(ss[i], ss[j])
  {
    var m := n - 1;
    assert TableClashes(ss, n) == TableClashes(ss, m) + RowClashes(ss, m, |ss|);
    if p in TableClashes(ss, m) {
      TableClashesFrom(ss, m, p);
      var i, j :| 0 <= i < m && i < j < |ss| && p == (ss[i], ss[j]) && Clash(ss[i], ss[j]);
      assert 0 <= i < n;
    } else {
      RowClashesMembers(ss, m, |ss|, p);
      var k :| m < k < |ss| && p == (ss[m], ss[k]) && Clash(ss[m], ss[k]);
      assert 0 <= m < n && m < k < |ss|;
    }
  }

  lemma TableClashesMembers(ss: seq<Shortcut>, n: nat, p: (Shortcut, Shortcut))
    requires n <= |ss|
    ensures p in TableClashes(ss, n) <==>
      exists i, j :: 0 <= i < n && i < j < |ss| && p == (ss[i], ss[j]) && Clash(ss[i], ss[j])
  {
    if p in TableClashes(ss, n) {
      TableClashesFrom(ss, n, p);
    }
    if exists i, j :: 0 <= i < n && i < j < |ss| && p == (ss[i], ss[j]) && Clash(ss[i], ss[j]) {
      var i, j :| 0 <= i < n && i < j < |ss| && p == (ss[i], ss[j]) && Clash(ss[i], ss[j]);
      TableClashesHas(ss, n, i, j);
    }
  }

  /** The pairs found over the whole table are exactly the clashing pairs (i, j), i < j. */
  lemma AllTableClashes(ss: seq<Shortcut>)
    ensures forall p :: p in TableClashes(ss, |ss|) <==>
      exists i, j :: 0 <= i < j < |ss| && p == (ss[i], ss[j]) && Clash(ss[i], ss[j])
  {
    forall p ensures p in TableClashes(ss, |ss|) <==>
      exists i, j :: 0 <= i < j < |ss| && p == (ss[i], ss[j]) && Clash(ss[i], ss[j])
    {
      TableClashesMembers(ss, |ss|, p);
    }
  }

  lemma {:induction false} EmptyKeyNoClashes(ss: seq<Shortcut>, i: nat, j: nat)
    requires i < |ss| && j <= |ss| && ss[i].key == ""
    ensures RowClashes(ss, i, j) == []
    decreases j
  {
    if j > i + 1 {
      EmptyKeyNoClashes(ss, i, j - 1);
    }
  }

  /** The table view: its model and the operations over all of its rows. */
  class ShortcutsTable {
    const sourceModel: ShortcutsModel

    constructor(sourceModel: ShortcutsModel)
      ensures this.sourceModel == sourceModel
    {
      this.sourceModel := sourceModel;
    }

    /**
     * Builds the rows from the configured shortcuts that a plugin declares,
     * sorted by context + name, each numbered by its position.
     */
    method LoadShortcuts(data: seq<ShortcutData>, conf: seq<ConfShortcut>)
      modifies sourceModel
      ensures |sourceModel.shortcuts| == |Loaded(data, conf)|
      ensures forall i :: 0 <= i < |sourceModel.shortcuts| ==>
        fresh(sourceModel.shortcuts[i]) && sourceModel.shortcuts[i].index == i
        && RowOf(sourceModel.shortcuts[i]) == Loaded(data, conf)[i]
      ensures forall i, j :: 0 <= i < j < |sourceModel.shortcuts| ==>
        sourceModel.shortcuts[i] != sourceModel.shortcuts[j]
    {
      var rows := Loaded(data, conf);
      var shortcuts: seq<Shortcut> := [];
      var i := 0;
      while i < |rows|
        invariant 0 <= i <= |rows| && |shortcuts| == i
        invariant forall k :: 0 <= k < i ==>
          fresh(shortcuts[k]) && shortcuts[k].index == k && RowOf(shortcuts[k]) == rows[k]
        invariant forall k, l :: 0 <= k < l < i ==> shortcuts[k] != shortcuts[l]
      {
        var row := rows[i];
        var shortcut := new Shortcut(row.context, row.name, row.key, row.pluginName);
        shortcut.index := i;
        shortcuts := shortcuts + [shortcut];
        i := i + 1;
      }
      sourceModel.shortcuts := shortcuts;
    }

    /**
     * The pairs of rows (i, j), i < j, listed in row order, whose keys are
     * equal and non-empty and whose contexts are equal or one of them is "_".
     */
    method CheckShortcuts() returns (found: seq<(Shortcut, Shortcut)>)
      ensures found == TableClashes(sourceModel.shortcuts, |sourceModel.shortcuts|)
      ensures forall p :: p in found <==>
        exists i, j :: 0 <= i < j < |sourceModel.shortcuts|
          && p == (sourceModel.shortcuts[i], sourceModel.shortcuts[j])
          && Clash(sourceModel.shortcuts[i], sourceModel.shortcuts[j])
    {
      var ss := sourceModel.shortcuts;
      found := [];
      var index := 0;
      while index < |ss|
        invariant 0 <= index <= |ss|
        invariant found == TableClashes(ss, index)
      {
        var sh1 := ss[index];
        if index == |ss| - 1 {
          assert RowClashes(ss, index, |ss|) == [];
          index := index + 1;
          break;
        }
        if sh1.key == "" {
          EmptyKeyNoClashes(ss, index, |ss|);
          index := index + 1;
          continue;
        }
        var j := index + 1;
        while j < |ss|
          invariant index + 1 <= j <= |ss|
          invariant found == TableClashes(ss, index) + RowClashes(ss, index, j)
        {
          var sh2 := ss[j];
          if sh2 != sh1 && sh2.key == sh1.key
             && (sh1.context == sh2.context || sh1.context == "_" || sh2.context == "_") {
            found := found + [(sh1, sh2)];
          }
          j := j + 1;
        }
        index := index + 1;
      }
      assert index == |ss|;
      AllTableClashes(ss);
    }
  }
}
