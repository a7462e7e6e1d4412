// The manual labelling screen: the palette of label buttons, toggling
// labels on the file shown, moving between files, and handing the files
// to the confirmation screen.

module PreviewMain {
  import opened Wrappers
  import opened Strings
  import opened LabelSystem
  import opened Tools

  // ---------------------------------------------------------------------
  // The palette
  // ---------------------------------------------------------------------

  /** The labels of the files, file by file, each file's labels in order. */
  ghost function AllLabels(files: seq<LabelFile>): seq<Label>
    reads files
  {
    if files == [] then [] else AllLabels(files[..|files| - 1]) + files[|files| - 1].Labels
  }

  /**
   * The palette built from `ls`: each label is added unless a label with
   * the same name (compared ordinally) is already there.
   */
  function DedupByName(ls: seq<Label>): seq<Label>
    decreases |ls|
  {
    if ls == [] then []
    else
      var kept := DedupByName(ls[..|ls| - 1]);
      var l := ls[|ls| - 1];
      if |FindAllNamed(kept, l.Name)| <= 0 then kept + [l] else kept
  }

  /** `FindAll` finds nothing exactly when no label carries the name. */
  lemma FindAllNamedEmpty(pool: seq<Label>, name: string)
    ensures |FindAllNamed(pool, name)| <= 0 <==> forall j :: 0 <= j < |pool| ==> pool[j].Name != name
  {
    if forall j :: 0 <= j < |pool| ==> pool[j].Name != name {
      FindAllNamedNone(pool, name);
    }
    if |FindAllNamed(pool, name)| <= 0 {
      forall j | 0 <= j < |pool|
        ensures pool[j].Name != name
      {
        assert pool[j] in pool && pool[j] !in FindAllNamed(pool, name);
      }
    }
  }

  /** The palette holds each name once. */
  lemma {:induction false} DedupNamesDistinct(ls: seq<Label>)
    ensures NamesDistinct(DedupByName(ls))
    decreases |ls|
  {
    if ls != [] {
      var init := ls[..|ls| - 1];
      var l := ls[|ls| - 1];
      DedupNamesDistinct(init);
      FindAllNamedEmpty(DedupByName(init), l.Name);
    }
  }

  /** The palette holds only labels of the files. */
  lemma {:induction false} DedupSubset(ls: seq<Label>)
    ensures forall x :: x in DedupByName(ls) ==> x in ls
    decreases |ls|
  {
    if ls != [] {
      var init := ls[..|ls| - 1];
      DedupSubset(init);
      assert forall x :: x in init ==> x in ls;
    }
  }

  /** Every name of the files has a label in the palette. */
  lemma {:induction false} DedupCovers(ls: seq<Label>)
    ensures forall i :: 0 <= i < |ls| ==> exists x :: x in DedupByName(ls) && x.Name == ls[i].Name
    decreases |ls|
  {
    if ls != [] {
      var init := ls[..|ls| - 1];
      var l := ls[|ls| - 1];
      DedupCovers(init);
      var kept := DedupByName(init);
      var r := DedupByName(ls);
      assert forall x :: x in kept ==> x in r;
      forall i | 0 <= i < |ls|
        ensures exists x :: x in r && x.Name == ls[i].Name
      {
        if i < |ls| - 1 {
          assert ls[i] == init[i];
        } else if |FindAllNamed(kept, l.Name)| > 0 {
          var x := FindAllNamed(kept, l.Name)[0];
          assert x in r && x.Name == l.Name;
        } else {
          assert l in r;
        }
      }
    }
  }

  /** `x` is the first label of `ls` with its name. */
  ghost predicate FirstOfName(ls: seq<Label>, x: Label)
  {
    exists i :: 0 <= i < |ls| && ls[i] == x && forall j :: 0 <= j < i ==> ls[j].Name != x.Name
  }

  /** Appending keeps a first occurrence first. */
  lemma FirstOfNameGrow(ls: seq<Label>, l: Label, x: Label)
    requires FirstOfName(ls, x)
    ensures FirstOfName(ls + [l], x)
  {
    var i :| 0 <= i < |ls| && ls[i] == x && forall j :: 0 <= j < i ==> ls[j].Name != x.Name;
    assert (ls + [l])[i] == x;
    assert forall j :: 0 <= j < i ==> (ls + [l])[j] == ls[j];
  }

  /** A label whose name none of `ls` carries is first after `ls`. */
  lemma FirstOfNameNew(ls: seq<Label>, l: Label)
    requires forall j :: 0 <= j < |ls| ==> ls[j].Name != l.Name
    ensures FirstOfName(ls + [l], l)
  {
    assert (ls + [l])[|ls|] == l;
    assert forall j :: 0 <= j < |ls| ==> (ls + [l])[j] == ls[j];
  }

  /**
   * Of all labels sharing a name, the palette keeps the first one in
   * file-then-label order.
   */
  lemma {:induction false} DedupKeepsFirst(ls: seq<Label>)
    ensures forall x :: x in DedupByName(ls) ==> FirstOfName(ls, x)
    decreases |ls|
  {
    if ls != [] {
      var init := ls[..|ls| - 1];
      var l := ls[|ls| - 1];
      assert ls == init + [l];
      DedupKeepsFirst(init);
      DedupKeepsFirstStep(init, l);
    }
  }

  /** One more label keeps every kept label first of its name. */
  lemma DedupKeepsFirstStep(init: seq<Label>, l: Label)
    requires forall x :: x in DedupByName(init) ==> FirstOfName(init, x)
    ensures forall x :: x in DedupByName(init + [l]) ==> FirstOfName(init + [l], x)
  {
    var kept := DedupByName(init);
    DedupByNameNext(init, l);
    forall x | x in kept
      ensures FirstOfName(init + [l], x)
    {
      FirstOfNameGrow(init, l, x);
    }
    if |FindAllNamed(kept, l.Name)| <= 0 {
      DedupNewIsFirst(init, l);
    }
  }

  /** A label the palette so far does not find by name is the first of its name. */
  lemma DedupNewIsFirst(init: seq<Label>, l: Label)
    requires |FindAllNamed(DedupByName(init), l.Name)| <= 0
    ensures FirstOfName(init + [l], l)
  {
    var kept := DedupByName(init);
    DedupCovers(init);
    FindAllNamedEmpty(kept, l.Name);
    forall j | 0 <= j < |init|
      ensures init[j].Name != l.Name
    {
      var x :| x in kept && x.Name == init[j].Name;
    }
    FirstOfNameNew(init, l);
  }

  /** The labels of the first `n + 1` files are those of the first `n`, then the next file's. */
  lemma AllLabelsNext(files: seq<LabelFile>, n: nat)
    requires n < |files|
    ensures AllLabels(files[..n + 1]) == AllLabels(files[..n]) + files[n].Labels
  {
    assert files[..n + 1][..n] == files[..n];
  }

  /** Adding one more label to the input is one more step of the palette. */
  lemma DedupByNameNext(ls: seq<Label>, l: Label)
    ensures DedupByName(ls + [l]) ==
      var kept := DedupByName(ls);
      if |FindAllNamed(kept, l.Name)| <= 0 then kept + [l] else kept
  {
    assert (ls + [l])[..|ls|] == ls;
  }

  /** Extending a prefix of `b` by one element. */
  lemma AppendNext<T>(a: seq<T>, b: seq<T>, j: nat)
    requires j < |b|
    ensures a + b[..j + 1] == (a + b[..j]) + [b[j]]
  {
    assert b[..j + 1] == b[..j] + [b[j]];
  }

  /** The inner loop of `OnLoaded`: one file's labels, each added unless its name is there. */
  method AddToPalette(labels: seq<Label>, more: seq<Label>, ghost before: seq<Label>) returns (grown: seq<Label>)
    requires labels == DedupByName(before)
    ensures grown == DedupByName(before + more)
  {
    grown := labels;
    assert before + more[..0] == before;
    for j := 0 to |more|
      invariant grown == DedupByName(before + more[..j])
    {
      var tag := more[j];
      DedupByNameNext(before + more[..j], tag);
      AppendNext(before, more, j);
      if |FindAllNamed(grown, tag.Name)| <= 0 {
        grown := grown + [tag];
      }
    }
    assert more[..|more|] == more;
  }

  /**
   * `OnLoaded`'s nested loops: every label of every file, added to the
   * palette unless one with its name is there.
   */
  method BuildPalette(files: array<LabelFile>) returns (labels: seq<Label>)
    ensures labels == DedupByName(AllLabels(files[..]))
  {
    labels := [];
    for i := 0 to files.Length
      invariant labels == DedupByName(AllLabels(files[..i]))
    {
      AllLabelsNext(files[..], i);
      assert files[..][..i] == files[..i] && files[..][..i + 1] == files[..i + 1];
      labels := AddToPalette(labels, files[i].Labels, AllLabels(files[..i]));
    }
    assert files[..files.Length] == files[..];
  }

  // ---------------------------------------------------------------------
  // Label buttons
  // ---------------------------------------------------------------------

  /** A toggle button of the palette: the label it carries and whether it is checked. */
  datatype Toggle = Toggle(tag: Label, checked: bool)

  /** New, unchecked buttons for the given labels. */
  function Unchecked(labels: seq<Label>): (r: seq<Toggle>)
    ensures |r| == |labels|
    ensures forall b :: 0 <= b < |r| ==> r[b].tag == labels[b] && !r[b].checked
  {
    if labels == [] then [] else Unchecked(labels[..|labels| - 1]) + [Toggle(labels[|labels| - 1], false)]
  }

  /** Every button checked exactly when it carries `l`. */
  function Mark(buttons: seq<Toggle>, l: Label): (r: seq<Toggle>)
    ensures |r| == |buttons|
    ensures forall b :: 0 <= b < |r| ==> r[b] == Toggle(buttons[b].tag, buttons[b].tag == l)
  {
    seq(|buttons|, b requires 0 <= b < |buttons| => Toggle(buttons[b].tag, buttons[b].tag == l))
  }

  /**
   * The buttons after showing a file with the given labels: each label in
   * turn checks its own button and unchecks all others, so only the last
   * label's button stays checked; with no labels the buttons keep their
   * state.
   */
  function Shown(buttons: seq<Toggle>, labels: seq<Label>): seq<Toggle>
  {
    if labels == [] then buttons else Mark(buttons, labels[|labels| - 1])
  }

  /**
   * A file with two or more labels shows only its last one checked: the
   * buttons of its other labels appear unchecked.
   */
  lemma ShownLastLabelWins(buttons: seq<Toggle>, labels: seq<Label>, b: nat)
    requires labels != [] && b < |buttons|
    ensures var r := Shown(buttons, labels);
      |r| == |buttons| && r[b].tag == buttons[b].tag
      && (r[b].checked <==> buttons[b].tag == labels[|labels| - 1])
  {
  }

  /** `List.Remove`: drops the first occurrence of `x`, if any. */
  function RemoveFirst(s: seq<Label>, x: Label): (r: seq<Label>)
    decreases |s|
  {
    if s == [] then []
    else if s[0] == x then s[1..]
    else [s[0]] + RemoveFirst(s[1..], x)
  }

  /** Removing the first occurrence keeps every other object and the order of the rest. */
  lemma {:induction false} RemoveFirstContents(s: seq<Label>, x: Label)
    ensures var r := RemoveFirst(s, x);
      && (x in s ==> |r| == |s| - 1)
      && (x !in s ==> r == s)
      && multiset(r) == multiset(s) - multiset{x}
    decreases |s|
  {
    if s != [] {
      RemoveFirstContents(s[1..], x);
      assert s == [s[0]] + s[1..];
    }
  }

  /** No label object occurs twice. */
  predicate NoDuplicates(s: seq<Label>)
  {
    forall i, j :: 0 <= i < j < |s| ==> s[i] != s[j]
  }

  /**
   * `LabelButtonClick` on the shown file's labels: checking adds the label
   * unless the list already holds that object; unchecking removes it if
   * present.
   */
  function Toggled(labels: seq<Label>, tag: Label, checked: bool): seq<Label>
  {
    if checked && tag !in labels then labels + [tag]
    else if !checked && tag in labels then RemoveFirst(labels, tag)
    else labels
  }

  /**
   * Toggling never introduces a duplicate: on a list without duplicates the
   * label is present exactly when its button is checked, and every other
   * label stays as it was.
   */
  lemma ToggledLabels(labels: seq<Label>, tag: Label, checked: bool)
    requires NoDuplicates(labels)
    ensures var r := Toggled(labels, tag, checked);
      && NoDuplicates(r)
      && (tag in r <==> checked)
      && (forall l :: l != tag ==> (l in r <==> l in labels))
  {
    var r := Toggled(labels, tag, checked);
    if !checked && tag in labels {
      RemoveFirstContents(labels, tag);
      assert multiset(labels)[tag] == 1 by {
        MultiplicityOne(labels, tag);
      }
      assert multiset(r)[tag] == 0;
      forall l | l != tag
        ensures l in r <==> l in labels
      {
        assert multiset(r)[l] == multiset(labels)[l];
      }
      forall i, j | 0 <= i < j < |r|
        ensures r[i] != r[j]
      {
        if r[i] == r[j] {
          TwiceInMultiset(r, i, j);
          MultiplicityOne(labels, r[i]);
          assert false;
        }
      }
    }
  }

  /** In a list without duplicates an element occurs once. */
  lemma {:induction false} MultiplicityOne(s: seq<Label>, x: Label)
    requires NoDuplicates(s) && x in s
    ensures multiset(s)[x] == 1
    decreases |s|
  {
    assert s == [s[0]] + s[1..];
    if s[0] == x {
      assert x !in s[1..];
    } else {
      MultiplicityOne(s[1..], x);
    }
  }

  /** Two positions holding the same object make it occur at least twice. */
  lemma {:induction false} TwiceInMultiset(s: seq<Label>, i: nat, j: nat)
    requires i < j < |s| && s[i] == s[j]
    ensures multiset(s)[s[i]] >= 2
  {
    assert s == s[..j] + [s[j]] + s[j + 1..];
    assert s[i] in s[..j];
  }

  /** The buttons with every one but the `b`-th unchecked. */
  function UncheckOthers(buttons: seq<Toggle>, b: nat): (r: seq<Toggle>)
    requires b < |buttons|
    ensures |r| == |buttons| && r[b] == buttons[b]
    ensures forall k :: 0 <= k < |r| && k != b ==> r[k] == Toggle(buttons[k].tag, false)
  {
    seq(|buttons|, k requires 0 <= k < |buttons| => if k == b then buttons[k] else Toggle(buttons[k].tag, false))
  }

  /** Showing a file twice, or after another, is showing it once. */
  lemma MarkAgain(buttons: seq<Toggle>, a: Label, l: Label)
    ensures Mark(Mark(buttons, a), l) == Mark(buttons, l)
  {
  }

  /** `TargetFile`'s result for a file, as it stands. */
  ghost function TargetOf(f: LabelFile, p: Placement): Option<string>
    reads f
  {
    TargetPath(p, Names(f.Labels), f.OriginalPath, f.ID)
  }

  /** The targets of every file of an array, in order. */
  ghost function TargetsOf(files: array<LabelFile>, p: Placement): (r: seq<Option<string>>)
    reads files, files[..]
    ensures |r| == files.Length
    ensures forall k :: 0 <= k < files.Length ==> r[k] == TargetOf(files[k], p)
  {
    seq(files.Length, k reads files, files[..] requires 0 <= k < files.Length => TargetOf(files[k], p))
  }

  /** The stored destinations of every file of an array, in order. */
  ghost function StoredOf(files: array<LabelFile>): (r: seq<Option<string>>)
    reads files, files[..]
    ensures |r| == files.Length
    ensures forall k :: 0 <= k < files.Length ==> r[k] == files[k].FinalTargetFile
  {
    seq(files.Length, k reads files, files[..] requires 0 <= k < files.Length => files[k].FinalTargetFile)
  }

  /** The index of the first file whose target cannot be computed, or the number of files. */
  function FirstFailure(targets: seq<Option<string>>): (r: nat)
    ensures r <= |targets|
    ensures forall k :: 0 <= k < r ==> targets[k].Some?
    ensures r < |targets| ==> targets[r].None?
    decreases |targets|
  {
    if targets == [] then 0
    else if targets[0].None? then 0
    else 1 + FirstFailure(targets[1..])
  }

  /** In rename mode every target can be computed, so finishing always reaches the confirmation screen. */
  lemma RenameNeverFails(files: seq<LabelFile>, p: Placement, targets: seq<Option<string>>)
    requires p.labelFilesBy == Rename && |targets| == |files|
    requires forall k :: 0 <= k < |files| ==> targets[k] == TargetPath(p, Names(files[k].Labels), files[k].OriginalPath, files[k].ID)
    ensures FirstFailure(targets) == |targets|
  {
    forall k | 0 <= k < |files|
      ensures targets[k].Some?
    {
      TargetFailsIffNoLabel(p, Names(files[k].Labels), files[k].OriginalPath, files[k].ID);
    }
    AllSomeReachEnd(targets);
  }

  /** Without a failing target the scan reaches the end. */
  lemma {:induction false} AllSomeReachEnd(targets: seq<Option<string>>)
    requires forall k :: 0 <= k < |targets| ==> targets[k].Some?
    ensures FirstFailure(targets) == |targets|
    decreases |targets|
  {
    if targets != [] {
      AllSomeReachEnd(targets[1..]);
    }
  }

  /** In subfolder mode finishing stops at the first file without a label. */
  lemma SubfolderStopsAtUnlabelled(files: seq<LabelFile>, p: Placement, targets: seq<Option<string>>, k: nat)
    requires p.labelFilesBy == Subfolder && |targets| == |files| && k < |files|
    requires forall j :: 0 <= j < |files| ==> targets[j] == TargetPath(p, Names(files[j].Labels), files[j].OriginalPath, files[j].ID)
    requires files[k].Labels == []
    ensures FirstFailure(targets) <= k
  {
    TargetFailsIffNoLabel(p, Names(files[k].Labels), files[k].OriginalPath, files[k].ID);
  }

  // ---------------------------------------------------------------------
  // The screen
  // ---------------------------------------------------------------------

  /** The manual labelling screen's state. */
  class PreviewMain {
    var CurrentPos: int
    var CurrentSetting: LabelerSetting?
    var Files: array<LabelFile>
    /** The label toggle buttons, in panel order. */
    var Buttons: seq<Toggle>
    /** Whether the label panel is enabled; button events are ignored while it is not. */
    var PanelEnabled: bool
    var PreviousEnabled: bool
    var NextEnabled: bool
    var FinishEnabled: bool
    var AddEnabled: bool

    /** A new screen: first position, no files, every control enabled. */
    constructor ()
      ensures CurrentPos == 0 && CurrentSetting == null && Files.Length == 0 && Buttons == []
      ensures PanelEnabled && PreviousEnabled && NextEnabled && FinishEnabled && AddEnabled
    {
      CurrentPos, CurrentSetting := 0, null;
      Files := new LabelFile[0];
      Buttons := [];
      PanelEnabled, PreviousEnabled, NextEnabled, FinishEnabled, AddEnabled := true, true, true, true, true;
    }

    /** `WithListAndSettings`: remembers the setting and the files. */
    method WithListAndSettings(setting: LabelerSetting, files: array<LabelFile>)
      modifies this
      ensures CurrentSetting == setting && Files == files
      ensures CurrentPos == old(CurrentPos) && Buttons == old(Buttons) && PanelEnabled == old(PanelEnabled)
      ensures PreviousEnabled == old(PreviousEnabled) && NextEnabled == old(NextEnabled)
      ensures FinishEnabled == old(FinishEnabled) && AddEnabled == old(AddEnabled)
    {
      CurrentSetting := setting;
      Files := files;
    }

    /**
     * The screen as `ShowItem` leaves it: the panel enabled, the position
     * inside the files, and the navigation buttons enabled by the rules
     * (previous away from the first file, next before the last, finish on
     * the last); with no files, navigation and adding are disabled.
     */
    ghost predicate Valid()
      reads this
    {
      && PanelEnabled
      && (Files.Length == 0 ==> !PreviousEnabled && !NextEnabled && !FinishEnabled && !AddEnabled)
      && (Files.Length > 0 ==>
            && 0 <= CurrentPos < Files.Length
            && PreviousEnabled == (CurrentPos != 0)
            && NextEnabled == (CurrentPos < Files.Length - 1)
            && FinishEnabled == (CurrentPos >= Files.Length - 1))
    }

    /** The inner loop of `ShowItem` for one label: every button checked exactly when it carries it. */
    method CheckOnly(l: Label)
      modifies this`Buttons
      ensures Buttons == Mark(old(Buttons), l)
    {
      ghost var start := Buttons;
      for b := 0 to |Buttons|
        invariant |Buttons| == |start|
        invariant forall k :: 0 <= k < b ==> Buttons[k] == Toggle(start[k].tag, start[k].tag == l)
        invariant forall k :: b <= k < |Buttons| ==> Buttons[k] == start[k]
      {
        Buttons := Buttons[b := Toggle(Buttons[b].tag, Buttons[b].tag == l)];
      }
    }

    /**
     * `ShowItem(CurrentItem)`: the file details read the file's length,
     * outside any `try`, so a file that is gone (`fileLength` gives none)
     * throws and leaves the buttons and the navigation as they were.
     * Otherwise, with the panel disabled, each label of the file checks its
     * own button and unchecks the others; then the navigation buttons follow
     * the position. Previews and the detail text are display only.
     */
    method ShowItem(fileLength: string -> Option<int>) returns (threw: bool)
      requires 0 <= CurrentPos < Files.Length
      modifies this`Buttons, this`PanelEnabled, this`PreviousEnabled, this`NextEnabled, this`FinishEnabled
      ensures threw == fileLength(Files[CurrentPos].OriginalPath).None?
      ensures threw ==>
        && Buttons == old(Buttons) && PanelEnabled == old(PanelEnabled)
        && PreviousEnabled == old(PreviousEnabled) && NextEnabled == old(NextEnabled) && FinishEnabled == old(FinishEnabled)
      ensures !threw ==>
        && Buttons == Shown(old(Buttons), Files[CurrentPos].Labels)
        && PanelEnabled
        && PreviousEnabled == (CurrentPos != 0)
        && NextEnabled == (CurrentPos < Files.Length - 1)
        && FinishEnabled == (CurrentPos >= Files.Length - 1)
      ensures !threw ==> Valid()
    {
      var file := Files[CurrentPos];
      if fileLength(file.OriginalPath).None? {
        return true;
      }
      threw := false;
      PanelEnabled := false;
      ghost var start := Buttons;
      for j := 0 to |file.Labels|
        invariant Buttons == Shown(start, file.Labels[..j])
      {
        if j > 0 {
          MarkAgain(start, file.Labels[j - 1], file.Labels[j]);
        }
        CheckOnly(file.Labels[j]);
      }
      assert file.Labels[..|file.Labels|] == file.Labels;
      PanelEnabled := true;
      PreviousEnabled := CurrentPos != 0;
      NextEnabled := CurrentPos < Files.Length - 1;
      FinishEnabled := CurrentPos >= Files.Length - 1;
    }

    /**
     * `OnLoaded`: without a setting nothing happens; without files every
     * navigation and the add button are disabled; otherwise a button per
     * palette label is added, unchecked, and the current file is shown.
     * `threw` is set where showing it throws.
     */
    method OnLoaded(fileLength: string -> Option<int>) returns (threw: bool)
      modifies this`Buttons, this`PanelEnabled, this`PreviousEnabled, this`NextEnabled, this`FinishEnabled, this`AddEnabled
      ensures CurrentSetting == null ==> unchanged(this)
      ensures CurrentSetting != null && Files.Length == 0 ==>
        && Buttons == old(Buttons) && PanelEnabled == old(PanelEnabled)
        && !PreviousEnabled && !NextEnabled && !FinishEnabled && !AddEnabled
      ensures CurrentSetting != null && Files.Length > 0 ==>
        var palette := old(Buttons) + Unchecked(DedupByName(AllLabels(Files[..])));
        && AddEnabled == old(AddEnabled)
        && threw == Unshowable(fileLength)
        && Buttons == if threw then palette else Shown(palette, Files[CurrentPos].Labels)
      ensures CurrentSetting == null || Files.Length == 0 ==> !threw
      ensures CurrentSetting != null && !threw && old(PanelEnabled) ==> Valid()
    {
      if CurrentSetting == null {
        return false;
      }
      if Files.Length <= 0 {
        FinishEnabled, PreviousEnabled, NextEnabled, AddEnabled := false, false, false, false;
        return false;
      }
      threw := ShowPalette(fileLength);
    }

    /**
     * Where `ShowItem(CurrentItem)` throws: `CurrentItem` is out of the
     * files, or the current file is gone.
     */
    predicate Unshowable(fileLength: string -> Option<int>)
      reads this, Files
    {
      !(0 <= CurrentPos < Files.Length) || fileLength(Files[CurrentPos].OriginalPath).None?
    }

    /** `OnLoaded` with files: the palette's buttons added, then the current file shown. */
    method ShowPalette(fileLength: string -> Option<int>) returns (threw: bool)
      requires Files.Length > 0
      modifies this`Buttons, this`PanelEnabled, this`PreviousEnabled, this`NextEnabled, this`FinishEnabled
      ensures threw == Unshowable(fileLength)
      ensures var palette := old(Buttons) + Unchecked(DedupByName(AllLabels(Files[..])));
        Buttons == if threw then palette else Shown(palette, Files[CurrentPos].Labels)
      ensures !threw ==> Valid()
    {
      ghost var all := AllLabels(Files[..]);
      var labels := BuildPalette(Files);
      Buttons := Buttons + Unchecked(labels);
      ghost var palette := Buttons;
      threw := ShowCurrent(fileLength);
      assert AllLabels(Files[..]) == all;
      assert palette == old(Buttons) + Unchecked(DedupByName(AllLabels(Files[..])));
    }

    /**
     * `ShowItem(CurrentItem)`, with `CurrentItem` throwing where the
     * position is off the files.
     */
    method ShowCurrent(fileLength: string -> Option<int>) returns (threw: bool)
      modifies this`Buttons, this`PanelEnabled, this`PreviousEnabled, this`NextEnabled, this`FinishEnabled
      ensures threw == Unshowable(fileLength)
      ensures threw ==>
        && Buttons == old(Buttons) && PanelEnabled == old(PanelEnabled)
        && PreviousEnabled == old(PreviousEnabled) && NextEnabled == old(NextEnabled) && FinishEnabled == old(FinishEnabled)
      ensures !threw ==> Valid() && Buttons == Shown(old(Buttons), Files[CurrentPos].Labels)
    {
      if CurrentPos < 0 || CurrentPos >= Files.Length {
        return true;
      }
      threw := ShowItem(fileLength);
    }

    /**
     * `AddLabel`: a blank or missing name is ignored; otherwise a new,
     * unchecked button carrying a new label of that name is added. Names
     * already in the palette are not checked for.
     */
    method AddLabel(text: Option<string>)
      modifies this`Buttons
      ensures text.None? || IsBlank(text.value) ==> Buttons == old(Buttons)
      ensures text.Some? && !IsBlank(text.value) ==>
        && |Buttons| == |old(Buttons)| + 1 && Buttons[..|old(Buttons)|] == old(Buttons)
        && var added := Buttons[|old(Buttons)|];
           fresh(added.tag) && added.tag.Name == text.value && !added.checked
    {
      if text.None? || IsBlank(text.value) {
        return;
      }
      var tag := new Label(text.value);
      Buttons := Buttons + [Toggle(tag, false)];
    }

    /**
     * A click on the `b`-th label button: the button flips; if the panel is
     * enabled the shown file gains or loses that label (as an object); in
     * subfolder mode without recursion every other button is then
     * unchecked with the panel disabled, so the file keeps its other
     * labels. `threw` is set where `CurrentItem` throws for want of files.
     */
    method LabelButtonClick(b: nat) returns (threw: bool)
      requires b < |Buttons|
      modifies this`Buttons, this`PanelEnabled
      modifies if 0 <= CurrentPos < Files.Length then {Files[CurrentPos]} else {}
      ensures var tag := old(Buttons[b].tag);
        var nowChecked := !old(Buttons[b].checked);
        var clicked := old(Buttons)[b := Toggle(tag, nowChecked)];
        var acts := old(PanelEnabled) && 0 <= CurrentPos < Files.Length;
        var exclusive := acts && CurrentSetting != null
          && !CurrentSetting.AllowRecursiveSubfolders && CurrentSetting.LabelFilesBy == Subfolder;
        && threw == (old(PanelEnabled) && !(0 <= CurrentPos < Files.Length))
        && PanelEnabled == old(PanelEnabled)
        && Buttons == (if exclusive then UncheckOthers(clicked, b) else clicked)
        && (acts ==> Files[CurrentPos].Labels == Toggled(old(Files[CurrentPos].Labels), tag, nowChecked))
    {
      var tag := Buttons[b].tag;
      var nowChecked := !Buttons[b].checked;
      Buttons := Buttons[b := Toggle(tag, nowChecked)];
      if !PanelEnabled {
        return false;
      }
      if CurrentPos < 0 || CurrentPos >= Files.Length {
        return true;
      }
      SetLabel(Files[CurrentPos], tag, nowChecked);
      threw := false;
      if CurrentSetting == null {
        return;
      }
      if CurrentSetting.AllowRecursiveSubfolders || CurrentSetting.LabelFilesBy != Subfolder {
        return;
      }
      PanelEnabled := false;
      UncheckAllBut(b);
      PanelEnabled := true;
    }

    /** The label list update of a click: add the label if newly checked, remove it if unchecked. */
    static method SetLabel(item: LabelFile, tag: Label, checked: bool)
      modifies item`Labels
      ensures item.Labels == Toggled(old(item.Labels), tag, checked)
    {
      if checked && tag !in item.Labels {
        item.Labels := item.Labels + [tag];
      } else if !checked && tag in item.Labels {
        item.Labels := RemoveFirst(item.Labels, tag);
      }
    }

    /** The loop of a click in exclusive mode: every button but the `b`-th unchecked. */
    method UncheckAllBut(b: nat)
      requires b < |Buttons|
      modifies this`Buttons
      ensures Buttons == UncheckOthers(old(Buttons), b)
    {
      ghost var start := Buttons;
      for k := 0 to |Buttons|
        invariant |Buttons| == |start|
        invariant forall j :: 0 <= j < k ==> Buttons[j] == UncheckOthers(start, b)[j]
        invariant forall j :: k <= j < |Buttons| ==> Buttons[j] == start[j]
      {
        if k != b {
          Buttons := Buttons[k := Toggle(Buttons[k].tag, false)];
        }
      }
    }

    /**
     * `PreviousItemButton_OnClick`: if enabled, one file back, shown. The
     * position moves before `ShowItem`, so where showing throws the screen
     * keeps its old buttons and navigation at the new position.
     */
    method Previous(fileLength: string -> Option<int>) returns (threw: bool)
      modifies this`CurrentPos, this`Buttons, this`PanelEnabled, this`PreviousEnabled, this`NextEnabled, this`FinishEnabled
      ensures CurrentPos == if old(PreviousEnabled) then old(CurrentPos) - 1 else old(CurrentPos)
      ensures threw == (old(PreviousEnabled) && Unshowable(fileLength))
      ensures !old(PreviousEnabled) || threw ==>
        && Buttons == old(Buttons) && PanelEnabled == old(PanelEnabled)
        && PreviousEnabled == old(PreviousEnabled) && NextEnabled == old(NextEnabled) && FinishEnabled == old(FinishEnabled)
      ensures old(PreviousEnabled) && !threw ==> Valid() && Buttons == Shown(old(Buttons), Files[CurrentPos].Labels)
      ensures old(Valid()) && old(PreviousEnabled) ==> 0 <= CurrentPos < Files.Length
      ensures old(Valid()) && !threw ==> Valid()
    {
      if !PreviousEnabled {
        return false;
      }
      CurrentPos := CurrentPos - 1;
      threw := ShowCurrent(fileLength);
    }

    /**
     * `NextItemButton_OnClick`: if enabled, one file forward, shown; as
     * with `Previous`, the position has moved where showing throws.
     */
    method Next(fileLength: string -> Option<int>) returns (threw: bool)
      modifies this`CurrentPos, this`Buttons, this`PanelEnabled, this`PreviousEnabled, this`NextEnabled, this`FinishEnabled
      ensures CurrentPos == if old(NextEnabled) then old(CurrentPos) + 1 else old(CurrentPos)
      ensures threw == (old(NextEnabled) && Unshowable(fileLength))
      ensures !old(NextEnabled) || threw ==>
        && Buttons == old(Buttons) && PanelEnabled == old(PanelEnabled)
        && PreviousEnabled == old(PreviousEnabled) && NextEnabled == old(NextEnabled) && FinishEnabled == old(FinishEnabled)
      ensures old(NextEnabled) && !threw ==> Valid() && Buttons == Shown(old(Buttons), Files[CurrentPos].Labels)
      ensures old(Valid()) && old(NextEnabled) ==> 0 <= CurrentPos < Files.Length
      ensures old(Valid()) && !threw ==> Valid()
    {
      if !NextEnabled {
        return false;
      }
      CurrentPos := CurrentPos + 1;
      threw := ShowCurrent(fileLength);
    }

    /** `TargetFile` on the `i`-th file, stated for the whole array. */
    static method TargetAt(files: array<LabelFile>, i: nat, setting: LabelerSetting, ghost p: Placement)
        returns (r: Option<string>)
      requires i < files.Length && p == setting.GetPlacement()
      modifies files[i]
      ensures r == old(TargetOf(files[i], p))
      ensures forall k :: 0 <= k < files.Length ==> TargetOf(files[k], p) == old(TargetOf(files[k], p))
      ensures forall k :: 0 <= k < files.Length ==>
        files[k].FinalTargetFile == if files[k] == files[i] && r.Some? then r else old(files[k].FinalTargetFile)
    {
      r := files[i].TargetFile(setting);
    }

    /**
     * `FinishLabeling`: without a setting nothing happens; otherwise
     * `TargetFile` runs on every file in order, storing each target, until
     * one throws, which ends the handler; only when all succeed does the
     * confirmation screen open, with the same setting and files. `stop` is
     * the index of the file that threw, or the number of files.
     */
    method FinishLabeling() returns (confirmed: bool, ghost stop: nat)
      modifies Files[..]
      ensures CurrentSetting == null ==> !confirmed && stop == 0 && unchanged(Files[..])
      ensures CurrentSetting != null ==>
        var p := CurrentSetting.GetPlacement();
        && (confirmed <==> stop == Files.Length)
        && TargetedUntilFailure(Files, p, old(TargetsOf(Files, p)), old(StoredOf(Files)), stop)
    {
      if CurrentSetting == null {
        return false, 0;
      }
      confirmed, stop := TargetAll(Files, CurrentSetting);
    }

    /** The loop of `FinishLabeling`, over an array of files. */
    static method TargetAll(files: array<LabelFile>, setting: LabelerSetting) returns (ok: bool, ghost stop: nat)
      modifies files[..]
      ensures var p := setting.GetPlacement();
        && (ok <==> stop == files.Length)
        && TargetedUntilFailure(files, p, old(TargetsOf(files, p)), old(StoredOf(files)), stop)
    {
      ghost var p := setting.GetPlacement();
      ghost var targets := TargetsOf(files, p);
      ghost var stored := StoredOf(files);
      stop := FirstFailure(targets);
      for i := 0 to files.Length
        invariant setting.GetPlacement() == p
        invariant i <= stop
        invariant forall k :: 0 <= k < files.Length ==> TargetOf(files[k], p) == targets[k]
        invariant forall k :: 0 <= k < files.Length ==>
          files[k].FinalTargetFile == if AmongFirst(files, i, files[k]) then targets[k] else stored[k]
      {
        label Before:
        var r := TargetAt(files, i, setting, p);
        assert r == targets[i];
        if r.None? {
          // The exception leaves the handler before the screen changes.
          return false, stop;
        }
        assert targets[i].Some? && (stop < |targets| ==> targets[stop].None?);
        assert i != stop;
        forall k | 0 <= k < files.Length
          ensures files[k].FinalTargetFile == if AmongFirst(files, i + 1, files[k]) then targets[k] else stored[k]
        {
          AmongFirstNext(files, i, files[k]);
          assert old@Before(files[k].FinalTargetFile) == if AmongFirst(files, i, files[k]) then targets[k] else stored[k];
        }
      }
      return true, stop;
    }
  }

  /**
   * The files after `TargetFile` ran on them in order until it first threw,
   * given each file's target and stored destination before: `stop` is the
   * first file whose target throws (or the number of files), no target
   * changed, and exactly the files before `stop` store their target.
   */
  ghost predicate TargetedUntilFailure(files: array<LabelFile>, p: Placement, targets: seq<Option<string>>,
                                       stored: seq<Option<string>>, stop: nat)
    requires |targets| == |stored| == files.Length
    reads files, files[..]
  {
    && stop == FirstFailure(targets)
    && (forall k :: 0 <= k < files.Length ==> TargetOf(files[k], p) == targets[k])
    && (forall k :: 0 <= k < files.Length ==>
          files[k].FinalTargetFile == if AmongFirst(files, stop, files[k]) then targets[k] else stored[k])
  }

  /** Whether `f` is one of the first `i` files of the array. */
  ghost predicate AmongFirst(files: array<LabelFile>, i: nat, f: LabelFile)
    reads files
  {
    exists j :: 0 <= j < i && j < files.Length && files[j] == f
  }

  /** One more file scanned. */
  lemma AmongFirstNext(files: array<LabelFile>, i: nat, f: LabelFile)
    requires i < files.Length
    ensures AmongFirst(files, i + 1, f) <==> AmongFirst(files, i, f) || files[i] == f
  {
    if files[i] == f {
      assert 0 <= i < i + 1 && i < files.Length && files[i] == f;
    }
  }
}
