/**
 * The `Tools` helpers: 32-bit add/subtract guards and the accent colour
 * shift, XML escaping, and `Automation`, the background job that loads
 * the files of a labelling project and, depending on the automation mode,
 * labels them before the next screen is shown.
 */
module Tools {
  import opened Wrappers
  import opened Strings
  import opened LabelSystem

  // ---------------------------------------------------------------------
  // 32-bit arithmetic guards
  // ---------------------------------------------------------------------

  predicate IsInt32(x: int)
  {
    Int32Min <= x <= Int32Max
  }

  /** Two's-complement wrap-around of C#'s unchecked `int` arithmetic. */
  function Wrap32(x: int): (r: int)
    ensures IsInt32(r)
    ensures IsInt32(x) ==> r == x
    ensures (r - x) % 0x1_0000_0000 == 0
  {
    (x - Int32Min) % 0x1_0000_0000 + Int32Min
  }

  /** `AddIfNeeded(number, add, limit)`: the sum, unless the (wrapped) sum exceeds the limit. */
  function AddIfNeeded(number: int, add: int, limit: int): int
    requires IsInt32(number) && IsInt32(add)
  {
    var sum := Wrap32(number + add);
    if sum > limit then number else sum
  }

  /**
   * `SubtractIfNeeded(number, subtract, limit)`: with the default limit 0 the
   * difference is taken only when `number > subtract`; with another limit it
   * is taken unless the (wrapped) difference falls below the limit.
   */
  function SubtractIfNeeded(number: int, subtract: int, limit: int): int
    requires IsInt32(number) && IsInt32(subtract)
  {
    var diff := Wrap32(number - subtract);
    if limit == 0 then (if number > subtract then diff else number)
    else if diff < limit then number else diff
  }

  /** Whatever the inputs, the result is the unchanged number or a value that does not exceed the limit. */
  lemma AddIfNeededNeverExceeds(number: int, add: int, limit: int)
    requires IsInt32(number) && IsInt32(add)
    ensures var r := AddIfNeeded(number, add, limit);
      r == number || r <= limit
  {
  }

  /** Without overflow, `AddIfNeeded` adds exactly when the true sum stays within the limit. */
  lemma AddIfNeededExact(number: int, add: int, limit: int)
    requires IsInt32(number) && IsInt32(add) && IsInt32(number + add)
    ensures AddIfNeeded(number, add, limit) == if number + add <= limit then number + add else number
  {
  }

  /**
   * The default limit `int.MaxValue` never blocks the addition: an overflowing
   * sum wraps around instead of being refused.
   */
  lemma DefaultLimitWraps(number: int, add: int)
    requires IsInt32(number) && IsInt32(add)
    ensures AddIfNeeded(number, add, Int32Max) == Wrap32(number + add)
    ensures number + add > Int32Max ==> AddIfNeeded(number, add, Int32Max) < number
  {
  }

  /** With the default limit 0 and non-negative operands the result never drops below zero or rises above `number`. */
  lemma SubtractIfNeededDefault(number: int, subtract: int)
    requires IsInt32(number) && IsInt32(subtract)
    requires 0 <= number && 0 <= subtract
    ensures SubtractIfNeeded(number, subtract, 0) == if number > subtract then number - subtract else number
    ensures 0 <= SubtractIfNeeded(number, subtract, 0) <= number
  {
  }

  // ---------------------------------------------------------------------
  // Accent colour shades
  // ---------------------------------------------------------------------

  type Byte = x: int | 0 <= x < 256

  /** The unchecked `(byte)` cast keeps the low eight bits. */
  function ToByte(x: int): (r: Byte)
    ensures 0 <= x < 256 ==> r == x
  {
    x % 256
  }

  /** An ARGB colour. */
  datatype Color = Color(A: Byte, R: Byte, G: Byte, B: Byte)

  /** `IsTransparencyHigh`: alpha below 130. */
  predicate IsTransparencyHigh(c: Color)
  {
    c.A < 130
  }

  /** One channel of `ShiftBrightness`: darkened by `value` on a bright colour, lightened otherwise. */
  function ShiftChannel(x: Byte, value: int, darken: bool): Byte
    requires IsInt32(value)
  {
    if darken then ToByte(SubtractIfNeeded(x, value, 0)) else ToByte(AddIfNeeded(x, value, 255))
  }

  /**
   * `ShiftBrightness(c, value, shiftAlpha)`. Whether the colour is bright is a
   * floating-point square root of weighted channel squares; it is a parameter
   * here.
   */
  function ShiftBrightness(c: Color, value: int, shiftAlpha: bool, bright: bool): Color
    requires IsInt32(value)
  {
    Color(
      if shiftAlpha then
        (if !IsTransparencyHigh(c) then ToByte(AddIfNeeded(c.A, value, 255)) else ToByte(SubtractIfNeeded(c.A, value, 0)))
      else c.A,
      ShiftChannel(c.R, value, bright),
      ShiftChannel(c.G, value, bright),
      ShiftChannel(c.B, value, bright))
  }

  /**
   * For a shift that cannot overflow, a channel is lightened by exactly
   * `value` when that stays within a byte and left alone otherwise, and
   * darkened by exactly `value` when it is larger than `value` and left
   * alone otherwise; the byte cast never wraps.
   */
  lemma ShiftChannelExact(x: Byte, value: int, darken: bool)
    requires 0 <= value <= Int32Max - 255
    ensures ShiftChannel(x, value, darken) ==
      if darken then (if x > value then x - value else x)
      else (if x + value <= 255 then x + value else x)
  {
    if darken {
      SubtractIfNeededDefault(x, value);
    } else {
      AddIfNeededExact(x, value, 255);
    }
  }

  /**
   * `SetAccent` derives its darker and lighter shades by shifting 20 and 40:
   * a bright colour never gets brighter, a dark one never gets darker, and
   * the alpha channel is kept.
   */
  lemma AccentShadesMoveOneWay(c: Color, value: int, bright: bool)
    requires value == 20 || value == 40
    ensures var s := ShiftBrightness(c, value, false, bright);
      && s.A == c.A
      && (bright ==> s.R <= c.R && s.G <= c.G && s.B <= c.B)
      && (!bright ==> s.R >= c.R && s.G >= c.G && s.B >= c.B)
  {
    ShiftChannelExact(c.R, value, bright);
    ShiftChannelExact(c.G, value, bright);
    ShiftChannelExact(c.B, value, bright);
  }

  // ---------------------------------------------------------------------
  // XML escaping
  // ---------------------------------------------------------------------

  /** The entity each of the five XML special characters is written as. */
  function EscapeChar(x: char): string
  {
    if x == '&' then "&amp;"
    else if x == '"' then "&quot;"
    else if x == '\'' then "&apos;"
    else if x == '<' then "&lt;"
    else if x == '>' then "&gt;"
    else [x]
  }

  /** Reference escaping: each character replaced by its entity in one pass. */
  function EscapeEach(s: string): string
  {
    if s == [] then [] else EscapeChar(s[0]) + EscapeEach(s[1..])
  }

  /** `ToXML`: five successive `Replace` passes, ampersands first. */
  function ToXML(s: string): string
  {
    Replace(Replace(Replace(Replace(Replace(s, "&", "&amp;"), "\"", "&quot;"), "'", "&apos;"), "<", "&lt;"), ">", "&gt;")
  }

  /** `ToXML` distributes over concatenation. */
  lemma ToXMLAppend(a: string, b: string)
    ensures ToXML(a + b) == ToXML(a) + ToXML(b)
  {
    var a1, b1 := Replace(a, "&", "&amp;"), Replace(b, "&", "&amp;");
    ReplaceCharAppend(a, b, '&', "&amp;");
    var a2, b2 := Replace(a1, "\"", "&quot;"), Replace(b1, "\"", "&quot;");
    ReplaceCharAppend(a1, b1, '"', "&quot;");
    var a3, b3 := Replace(a2, "'", "&apos;"), Replace(b2, "'", "&apos;");
    ReplaceCharAppend(a2, b2, '\'', "&apos;");
    var a4, b4 := Replace(a3, "<", "&lt;"), Replace(b3, "<", "&lt;");
    ReplaceCharAppend(a3, b3, '<', "&lt;");
    ReplaceCharAppend(a4, b4, '>', "&gt;");
  }

  /** The passes after the first leave an entity alone. */
  lemma ReplaceSkipsText(t: string, c: char, rep: string)
    requires c !in t
    ensures Replace(t, [c], rep) == t
  {
    AbsentCharNotContained(t, c);
    ReplaceAbsent(t, [c], rep);
  }

  /** One pass on a single character. */
  lemma ReplaceOneChar(x: char, c: char, rep: string)
    ensures Replace([x], [c], rep) == if x == c then rep else [x]
  {
    ReplaceCharCons(x, [], c, rep);
    assert [x] + [] == [x];
    ReplaceAbsent([], [c], rep);
  }

  // One lemma per kind of character: each follows it through the five passes.

  lemma ToXMLAmpersand(x: char)
    requires x == '&'
    ensures ToXML([x]) == "&amp;"
  {
    var s1 := Replace([x], "&", "&amp;");
    ReplaceOneChar(x, '&', "&amp;");
    ReplaceSkipsText(s1, '"', "&quot;");
    ReplaceSkipsText(s1, '\'', "&apos;");
    ReplaceSkipsText(s1, '<', "&lt;");
    ReplaceSkipsText(s1, '>', "&gt;");
  }

  lemma ToXMLQuote(x: char)
    requires x == '"'
    ensures ToXML([x]) == "&quot;"
  {
    ReplaceOneChar(x, '&', "&amp;");
    var s2 := Replace([x], "\"", "&quot;");
    ReplaceOneChar(x, '"', "&quot;");
    ReplaceSkipsText(s2, '\'', "&apos;");
    ReplaceSkipsText(s2, '<', "&lt;");
    ReplaceSkipsText(s2, '>', "&gt;");
  }

  lemma ToXMLApostrophe(x: char)
    requires x == '\''
    ensures ToXML([x]) == "&apos;"
  {
    ReplaceOneChar(x, '&', "&amp;");
    ReplaceOneChar(x, '"', "&quot;");
    var s3 := Replace([x], "'", "&apos;");
    ReplaceOneChar(x, '\'', "&apos;");
    ReplaceSkipsText(s3, '<', "&lt;");
    ReplaceSkipsText(s3, '>', "&gt;");
  }

  lemma ToXMLLess(x: char)
    requires x == '<'
    ensures ToXML([x]) == "&lt;"
  {
    ReplaceOneChar(x, '&', "&amp;");
    ReplaceOneChar(x, '"', "&quot;");
    ReplaceOneChar(x, '\'', "&apos;");
    var s4 := Replace([x], "<", "&lt;");
    ReplaceOneChar(x, '<', "&lt;");
    ReplaceSkipsText(s4, '>', "&gt;");
  }

  lemma ToXMLOther(x: char)
    requires x != '&' && x != '"' && x != '\'' && x != '<'
    ensures ToXML([x]) == if x == '>' then "&gt;" else [x]
  {
    ReplaceOneChar(x, '&', "&amp;");
    ReplaceOneChar(x, '"', "&quot;");
    ReplaceOneChar(x, '\'', "&apos;");
    ReplaceOneChar(x, '<', "&lt;");
    ReplaceOneChar(x, '>', "&gt;");
  }

  /** On a single character, `ToXML` yields its entity. */
  lemma ToXMLChar(x: char)
    ensures ToXML([x]) == EscapeChar(x)
  {
    if x == '&' {
      ToXMLAmpersand(x);
    } else if x == '"' {
      ToXMLQuote(x);
    } else if x == '\'' {
      ToXMLApostrophe(x);
    } else if x == '<' {
      ToXMLLess(x);
    } else {
      ToXMLOther(x);
    }
  }

  /**
   * The five chained passes agree with escaping each character once: as `&`
   * is replaced first, the ampersands the later passes insert are never
   * escaped again.
   */
  lemma {:induction false} ToXMLIsEscapeEach(s: string)
    ensures ToXML(s) == EscapeEach(s)
    decreases |s|
  {
    if s != [] {
      assert s == [s[0]] + s[1..];
      ToXMLAppend([s[0]], s[1..]);
      ToXMLChar(s[0]);
      ToXMLIsEscapeEach(s[1..]);
    }
  }

  /** Reference escaping leaves no quote, apostrophe or angle bracket behind. */
  lemma {:induction false} EscapeEachNoMarkup(s: string)
    ensures var r := EscapeEach(s);
      '"' !in r && '\'' !in r && '<' !in r && '>' !in r
    decreases |s|
  {
    if s != [] {
      EscapeEachNoMarkup(s[1..]);
      EscapeCharNoMarkup(s[0]);
      assert EscapeEach(s) == EscapeChar(s[0]) + EscapeEach(s[1..]);
    }
  }

  /** No entity holds a quote, an apostrophe or an angle bracket. */
  lemma EscapeCharNoMarkup(x: char)
    ensures var e := EscapeChar(x);
      '"' !in e && '\'' !in e && '<' !in e && '>' !in e
  {
  }

  /** `ToXML` output holds no `"`, `'`, `<` or `>`, so it can sit inside an attribute or element. */
  lemma ToXMLNoMarkup(s: string)
    ensures var r := ToXML(s);
      '"' !in r && '\'' !in r && '<' !in r && '>' !in r
  {
    ToXMLIsEscapeEach(s);
    EscapeEachNoMarkup(s);
  }

  /** Text free of the five special characters is written unchanged. */
  lemma {:induction false} ToXMLPlainUnchanged(s: string)
    requires forall i :: 0 <= i < |s| ==> s[i] !in "&\"'<>"
    ensures ToXML(s) == s
    decreases |s|
  {
    ToXMLIsEscapeEach(s);
    if s != [] {
      ToXMLPlainUnchanged(s[1..]);
      ToXMLIsEscapeEach(s[1..]);
      assert s[0] !in "&\"'<>";
      assert s == [s[0]] + s[1..];
    }
  }

  /** Every character grows into at least itself: escaping never shortens text. */
  lemma {:induction false} EscapeEachLength(s: string)
    ensures |EscapeEach(s)| >= |s|
    ensures |EscapeEach(s)| == |s| <==> forall i :: 0 <= i < |s| ==> s[i] !in "&\"'<>"
    decreases |s|
  {
    if s != [] {
      EscapeEachLength(s[1..]);
      if |EscapeEach(s)| == |s| {
        assert |EscapeChar(s[0])| == 1;
        forall i | 0 <= i < |s|
          ensures s[i] !in "&\"'<>"
        {
          if i > 0 {
            assert s[i] == s[1..][i - 1];
          }
        }
      }
      if forall i :: 0 <= i < |s| ==> s[i] !in "&\"'<>" {
        assert forall i :: 0 <= i < |s[1..]| ==> s[1..][i] == s[i + 1];
      }
    }
  }

  // ---------------------------------------------------------------------
  // Automation
  // ---------------------------------------------------------------------

  /** The localized label names `Automation` creates labels with. */
  datatype AutomationTexts = AutomationTexts(
    video: string, audio: string, text: string, archive: string, image: string,
    unknown: string, smaller: string, bigger: string)

  /**
   * What `Automation` learns from the file system besides enumeration:
   * `FileInfo.Length` and the decoded size (width, height) of an image;
   * `None` where reading throws.
   */
  datatype Probes = Probes(
    enumerate: Enumerator,
    fileLength: string -> Option<int>,
    imageSize: string -> Option<(int, int)>)

  /** An entry of the error list; the localized message text is not modelled. */
  datatype AutomationError = GettingFiles | ErrorOnFile(path: string) | NoFilesLoaded

  /** The screen `Automation` shows when it finishes. */
  datatype NextView = ShowError(errors: seq<AutomationError>) | ShowPreview | ShowConfirm

  /** The error screen when anything went wrong, the confirmation screen otherwise. */
  function Conclude(errors: seq<AutomationError>): (v: NextView)
    ensures v.ShowConfirm? <==> errors == []
    ensures v.ShowError? ==> v.errors == errors
  {
    if |errors| > 0 then ShowError(errors) else ShowConfirm
  }

  /** C#'s `int` division, which truncates toward zero. */
  function TruncDiv(a: int, n: nat): (r: int)
    requires n > 0
    ensures a >= 0 ==> r == a / n
    ensures a < 0 ==> r == -((-a) / n)
  {
    if a >= 0 then a / n else -((-a) / n)
  }

  /** The largest file count for which `i * 100` fits in an `int` for every file index `i`. */
  const ProgressSafeFiles: nat := 21474837

  /**
   * `i * 100 / n` in C#'s `int` arithmetic: the product wraps around, then
   * the division truncates toward zero.
   */
  function Percent(i: nat, n: nat): (r: int)
    requires n > 0
    ensures IsInt32(r)
    ensures i * 100 <= Int32Max ==> r == i * 100 / n
  {
    var r := TruncDiv(Wrap32(i * 100), n);
    assert IsInt32(r) by {
      var a := Wrap32(i * 100);
      if a < 0 {
        assert (-a) / n <= -a by { DivAtMost(-a, n); }
      } else {
        DivAtMost(a, n);
      }
    }
    r
  }

  lemma DivAtMost(a: nat, n: nat)
    requires n > 0
    ensures 0 <= a / n <= a
  {
    var q, m := a / n, a % n;
    assert a == n * q + m && 0 <= m;
    assert q <= n * q by { MulMonotone(q, 1, n); }
  }

  /** The first `i` values the progress bar takes for `n` files, one per file handled. */
  function ProgressUpTo(i: nat, n: nat): (r: seq<int>)
    requires i <= n
    ensures |r| == i
  {
    seq(i, j requires 0 <= j < i => Percent(j, n))
  }

  /** One update of the progress bar, `status.Percentage = i * 100 / n`, after the `i`-th file. */
  method AdvanceProgress(progress: seq<int>, i: nat, n: nat) returns (next: seq<int>)
    requires i < n && progress == ProgressUpTo(i, n)
    ensures next == ProgressUpTo(i + 1, n)
  {
    next := progress + [Percent(i, n)];
    assert forall j :: 0 <= j <= i ==> next[j] == ProgressUpTo(i + 1, n)[j];
  }

  /** The successive values of the progress bar for `n` files. */
  function Percentages(n: nat): seq<int>
  {
    ProgressUpTo(n, n)
  }

  /**
   * After the `j`-th file the bar shows `j * 100 / n` in `int` arithmetic,
   * which is the exact quotient whenever `j * 100` fits in an `int`.
   */
  lemma ProgressEntries(i: nat, n: nat)
    requires i <= n
    ensures forall j :: 0 <= j < i ==> ProgressUpTo(i, n)[j] == Percent(j, n)
    ensures forall j :: 0 <= j < i && j <= ProgressSafeFiles - 1 ==> ProgressUpTo(i, n)[j] == j * 100 / n
  {
  }

  /**
   * The progress bar starts at 0, never goes back and never reaches 100,
   * for up to `ProgressSafeFiles` files; beyond that the product wraps
   * (`ProgressWrapsNegative`).
   */
  lemma PercentagesBounded(n: nat)
    requires n <= ProgressSafeFiles
    ensures var r := Percentages(n);
      && (n > 0 ==> r[0] == 0)
      && (forall i :: 0 <= i < n ==> 0 <= r[i] < 100)
      && (forall i, j :: 0 <= i <= j < n ==> r[i] <= r[j])
  {
    var r := Percentages(n);
    ProgressEntries(n, n);
    forall i | 0 <= i < n
      ensures 0 <= r[i] < 100
    {
      assert r[i] == i * 100 / n;
      DivAtMost(i * 100, n);
      DivBelow(i * 100, n, 100);
    }
    forall i, j | 0 <= i <= j < n
      ensures r[i] <= r[j]
    {
      assert r[i] == i * 100 / n && r[j] == j * 100 / n;
      DivMonotone(i * 100, j * 100, n);
    }
  }

  /**
   * With one file more than `ProgressSafeFiles`, `i * 100` overflows on the
   * last file and the bar shows a negative percentage.
   */
  lemma ProgressWrapsNegative()
    ensures Percentages(ProgressSafeFiles + 1)[ProgressSafeFiles] == -99
  {
    var n := ProgressSafeFiles + 1;
    ProgressEntries(n, n);
    assert Wrap32(ProgressSafeFiles * 100) == 2147483700 - 0x1_0000_0000;
  }

  lemma MulMonotone(n: nat, x: int, y: int)
    ensures x <= y ==> n * x <= n * y
  {
  }

  lemma DivBelow(a: nat, n: nat, k: nat)
    requires 0 < n && a < n * k
    ensures a / n < k
  {
    MulMonotone(n, k, a / n);
    assert a == n * (a / n) + a % n;
  }

  lemma DivMonotone(a: nat, b: nat, n: nat)
    requires 0 < n && a <= b
    ensures a / n <= b / n
  {
    MulMonotone(n, b / n + 1, a / n);
    assert a == n * (a / n) + a % n;
    assert b == n * (b / n) + b % n;
    assert n * (b / n + 1) == n * (b / n) + n;
  }

  /**
   * Which files a branch reports: by extension, the files without one; by
   * threshold, the files whose probe throws or that are left without a label
   * in subfolder mode.
   */
  datatype FailureRule = NoExtension | ThresholdRule(t: Thresholds, p: Placement, probes: Probes)

  predicate Fails(rule: FailureRule, f: LabelFile)
  {
    match rule
    case NoExtension => ExtensionFails(f)
    case ThresholdRule(t, p, probes) => ThresholdFails(f, t, p, probes)
  }

  /** One error per failing file, in file order. */
  function ErrorsWhere(files: seq<LabelFile>, rule: FailureRule): seq<AutomationError>
    decreases |files|
  {
    if files == [] then []
    else
      var last := files[|files| - 1];
      ErrorsWhere(files[..|files| - 1], rule) + (if Fails(rule, last) then [ErrorOnFile(last.OriginalPath)] else [])
  }

  /** One more file adds its error, if it fails. */
  lemma ErrorsWhereNext(files: seq<LabelFile>, i: nat, rule: FailureRule)
    requires i < |files|
    ensures ErrorsWhere(files[..i + 1], rule)
         == ErrorsWhere(files[..i], rule) + (if Fails(rule, files[i]) then [ErrorOnFile(files[i].OriginalPath)] else [])
  {
    assert files[..i + 1][..i] == files[..i];
  }

  /** No failing file, no error; and the other way round. */
  lemma {:induction false} ErrorsWhereEmpty(files: seq<LabelFile>, rule: FailureRule)
    ensures ErrorsWhere(files, rule) == [] <==> forall f :: f in files ==> !Fails(rule, f)
    decreases |files|
  {
    if files != [] {
      var init := files[..|files| - 1];
      ErrorsWhereEmpty(init, rule);
      assert forall f :: f in files <==> f in init || f == files[|files| - 1];
    }
  }

  /** The files are the ones `GetFiles` just made: distinct, consistent, unlabelled and without a target. */
  ghost predicate Unlabelled(files: array<LabelFile>)
    reads files, files[..]
  {
    && Distinct(files[..])
    && forall k :: 0 <= k < files.Length ==>
         files[k].Labels == [] && files[k].FinalTargetFile == None
  }

  /**
   * The common step of the labelling branches: adds labels to a file that has
   * none and asks for its target, which is stored unless it throws.
   */
  method LabelAndTarget(file: LabelFile, tags: seq<Label>, setting: LabelerSetting) returns (target: Option<string>)
    requires file.Labels == [] && file.FinalTargetFile == None
    modifies file
    ensures file.Labels == tags
    ensures target == TargetPath(setting.GetPlacement(), Names(tags), file.OriginalPath, file.ID)
    ensures file.FinalTargetFile == target
  {
    file.Labels := file.Labels + tags;
    assert file.Labels == tags;
    target := file.TargetFile(setting);
  }

  // --- By file extension --------------------------------------------------

  /** All labels of the pool with the given name, in pool order (`labels.FindAll`). */
  function FindAllNamed(pool: seq<Label>, name: string): (r: seq<Label>)
    ensures forall l :: l in r ==> l in pool && l.Name == name
    ensures forall l :: l in pool && l.Name == name ==> l in r
    decreases |pool|
  {
    if pool == [] then []
    else
      var last := pool[|pool| - 1];
      FindAllNamed(pool[..|pool| - 1], name) + (if last.Name == name then [last] else [])
  }

  /** No two labels of the pool share a name. */
  predicate NamesDistinct(pool: seq<Label>)
  {
    forall i, j :: 0 <= i < j < |pool| ==> pool[i].Name != pool[j].Name
  }

  /** In a pool without duplicate names, a name that is present finds exactly one label. */
  lemma {:induction false} FindAllNamedSingle(pool: seq<Label>, name: string, l: Label)
    requires NamesDistinct(pool)
    requires l in pool && l.Name == name
    ensures FindAllNamed(pool, name) == [l]
    decreases |pool|
  {
    var init := pool[..|pool| - 1];
    var last := pool[|pool| - 1];
    assert NamesDistinct(init);
    if last == l {
      forall j | 0 <= j < |init|
        ensures init[j].Name != name
      {
        assert pool[j] == init[j];
      }
      FindAllNamedNone(init, name);
    } else {
      var j :| 0 <= j < |pool| && pool[j] == l;
      assert j < |pool| - 1 && init[j] == l;
      FindAllNamedSingle(init, name, l);
      assert last.Name != name;
    }
  }

  /** A name no label carries finds nothing. */
  lemma {:induction false} FindAllNamedNone(pool: seq<Label>, name: string)
    requires forall j :: 0 <= j < |pool| ==> pool[j].Name != name
    ensures FindAllNamed(pool, name) == []
    decreases |pool|
  {
    if pool != [] {
      FindAllNamedNone(pool[..|pool| - 1], name);
    }
  }

  /** Adding a label with another name does not change what a name finds. */
  lemma FindAllNamedGrow(pool: seq<Label>, l: Label, name: string)
    ensures FindAllNamed(pool + [l], name) == FindAllNamed(pool, name) + (if l.Name == name then [l] else [])
  {
    assert (pool + [l])[..|pool|] == pool;
  }

  /** Where `Substring(1)` throws: a file without extension. */
  predicate ExtensionFails(f: LabelFile)
  {
    f.FileExtension() == ""
  }

  /** The label name a file gets by extension: its extension without the dot. */
  function ExtensionName(f: LabelFile): string
    requires !ExtensionFails(f)
  {
    f.FileExtension()[1..]
  }

  /**
   * The state of a file after labelling by extension: without an extension
   * it is left alone; otherwise it carries one label of the pool, named after
   * its extension, and its target for that label.
   */
  ghost predicate ExtensionLabelled(f: LabelFile, pool: seq<Label>, p: Placement)
    reads f
  {
    if ExtensionFails(f) then f.Labels == [] && f.FinalTargetFile == None
    else
      && |f.Labels| == 1 && f.Labels[0] in pool && f.Labels[0].Name == ExtensionName(f)
      && f.FinalTargetFile == TargetPath(p, [ExtensionName(f)], f.OriginalPath, f.ID)
  }

  /**
   * In a pool without duplicate names, a labelled file carries exactly what
   * `FindAll` finds for its extension name, so files with the same
   * extension share one label object.
   */
  lemma ExtensionLabelIsFound(f: LabelFile, pool: seq<Label>, p: Placement)
    requires NamesDistinct(pool) && ExtensionLabelled(f, pool, p) && !ExtensionFails(f)
    ensures f.Labels == FindAllNamed(pool, ExtensionName(f))
  {
    FindAllNamedSingle(pool, ExtensionName(f), f.Labels[0]);
  }

  /**
   * One file of the extension branch: reuses the pool label named after the
   * extension, or adds a new one to the end of the pool.
   */
  method LabelOneByExtension(file: LabelFile, pool: seq<Label>, setting: LabelerSetting) returns (grown: seq<Label>)
    requires file.Labels == [] && file.FinalTargetFile == None
    requires !ExtensionFails(file) && NamesDistinct(pool)
    modifies file
    ensures NamesDistinct(grown)
    ensures ExtensionLabelled(file, grown, setting.GetPlacement())
    ensures FindAllNamed(pool, ExtensionName(file)) != [] ==> grown == pool
    ensures FindAllNamed(pool, ExtensionName(file)) == [] ==> grown == pool + file.Labels
    ensures pool <= grown
  {
    var name := ExtensionName(file);
    var matches := FindAllNamed(pool, name);
    if |matches| > 0 {
      var found := matches[0];
      FindAllNamedSingle(pool, name, found);
      grown := pool;
      GiveExtensionLabel(file, found, grown, setting);
    } else {
      var tag := new Label(name);
      FindAllNamedGrow(pool, tag, name);
      grown := pool + [tag];
      assert grown[|pool|] == tag;
      GiveExtensionLabel(file, tag, grown, setting);
    }
  }

  /** Gives a file the pool label named after its extension, and its target. */
  method GiveExtensionLabel(file: LabelFile, tag: Label, pool: seq<Label>, setting: LabelerSetting)
    requires file.Labels == [] && file.FinalTargetFile == None && !ExtensionFails(file)
    requires tag in pool && tag.Name == ExtensionName(file)
    modifies file
    ensures file.Labels == [tag]
    ensures ExtensionLabelled(file, pool, setting.GetPlacement())
  {
    assert Names([tag]) == [tag.Name];
    var target := LabelAndTarget(file, [tag], setting);
  }

  /** A label kept in a larger pool stays in it. */
  lemma ExtensionLabelledGrow(f: LabelFile, pool: seq<Label>, grown: seq<Label>, p: Placement)
    requires pool <= grown && ExtensionLabelled(f, pool, p)
    ensures ExtensionLabelled(f, grown, p)
  {
    if !ExtensionFails(f) {
      var i :| 0 <= i < |pool| && pool[i] == f.Labels[0];
      assert grown[i] == f.Labels[0];
    }
  }

  /**
   * The body of the extension loop for one file: a file without extension
   * adds its error (`Substring(1)` throws before anything is added);
   * otherwise it is labelled and the pool may grow.
   */
  method ExtensionStep(file: LabelFile, errors: seq<AutomationError>, pool: seq<Label>, setting: LabelerSetting)
      returns (errors': seq<AutomationError>, grown: seq<Label>)
    requires file.Labels == [] && file.FinalTargetFile == None && NamesDistinct(pool)
    modifies file
    ensures errors' == errors + (if ExtensionFails(file) then [ErrorOnFile(file.OriginalPath)] else [])
    ensures NamesDistinct(grown) && pool <= grown
    ensures ExtensionLabelled(file, grown, setting.GetPlacement())
  {
    if file.FileExtension() == "" {
      errors', grown := errors + [ErrorOnFile(file.OriginalPath)], pool;
    } else {
      errors' := errors;
      grown := LabelOneByExtension(file, pool, setting);
    }
  }

  /**
   * The extension branch of `Automation`: every file with an extension gets
   * the label named after it, one shared label per distinct name; a file
   * without one is reported and skipped.
   */
  method LabelByExtension(files: array<LabelFile>, setting: LabelerSetting)
      returns (errors: seq<AutomationError>, pool: seq<Label>, progress: seq<int>)
    requires Unlabelled(files)
    modifies files[..]
    ensures NamesDistinct(pool)
    ensures errors == ErrorsWhere(files[..], NoExtension)
    ensures progress == Percentages(files.Length)
    ensures forall k :: 0 <= k < files.Length ==> ExtensionLabelled(files[k], pool, setting.GetPlacement())
  {
    errors, pool, progress := [], [], [];
    ghost var p := setting.GetPlacement();
    for i := 0 to files.Length
      invariant forall a, b :: 0 <= a < b < files.Length ==> files[a] != files[b]
      invariant setting.GetPlacement() == p
      invariant NamesDistinct(pool)
      invariant errors == ErrorsWhere(files[..i], NoExtension)
      invariant progress == ProgressUpTo(i, files.Length)
      invariant forall k :: 0 <= k < i ==> ExtensionLabelled(files[k], pool, p)
      invariant forall k :: i <= k < files.Length ==>
        files[k].Labels == [] && files[k].FinalTargetFile == None
    {
      assert files[..i + 1][..i] == files[..i] && files[..i + 1][i] == files[i];
      errors, pool := ExtensionAt(files, i, errors, pool, setting, p);
      progress := AdvanceProgress(progress, i, files.Length);
    }
    assert files[..files.Length] == files[..];
  }

  /** The extension step on the `i`-th of distinct files, stated for the whole array. */
  method ExtensionAt(files: array<LabelFile>, i: nat, errors: seq<AutomationError>, pool: seq<Label>,
                     setting: LabelerSetting, ghost p: Placement)
      returns (errors': seq<AutomationError>, grown: seq<Label>)
    requires i < files.Length && p == setting.GetPlacement()
    requires forall a, b :: 0 <= a < b < files.Length ==> files[a] != files[b]
    requires files[i].Labels == [] && files[i].FinalTargetFile == None && NamesDistinct(pool)
    requires forall k :: 0 <= k < i ==> ExtensionLabelled(files[k], pool, p)
    modifies files[i]
    ensures errors' == errors + (if ExtensionFails(files[i]) then [ErrorOnFile(files[i].OriginalPath)] else [])
    ensures NamesDistinct(grown)
    ensures forall k :: 0 <= k <= i ==> ExtensionLabelled(files[k], grown, p)
    ensures forall k :: 0 <= k < files.Length && k != i ==>
      files[k].Labels == old(files[k].Labels) && files[k].FinalTargetFile == old(files[k].FinalTargetFile)
  {
    var file := files[i];
    label Before:
    errors', grown := ExtensionStep(file, errors, pool, setting);
    forall k | 0 <= k < i
      ensures ExtensionLabelled(files[k], grown, p)
    {
      assert old@Before(ExtensionLabelled(files[k], pool, p));
      ExtensionLabelledGrow(files[k], pool, grown, p);
    }
  }

  // --- By file category ---------------------------------------------------

  /** The six labels shared by the category branch. */
  datatype CategoryLabels = CategoryLabels(video: Label, audio: Label, text: Label, archive: Label, image: Label, unknown: Label)

  /** The label a file type is given; unsupported files are unknown. */
  function CategoryLabel(ls: CategoryLabels, t: FileType): Label
  {
    match t
    case Unsupported => ls.unknown
    case Archive => ls.archive
    case Audio => ls.audio
    case Image => ls.image
    case Video => ls.video
    case Text => ls.text
  }

  /** The six labels, named by the localized texts. */
  method NewCategoryLabels(texts: AutomationTexts) returns (labels: CategoryLabels)
    ensures labels.video.Name == texts.video && labels.audio.Name == texts.audio && labels.text.Name == texts.text
    ensures labels.archive.Name == texts.archive && labels.image.Name == texts.image && labels.unknown.Name == texts.unknown
  {
    var video := new Label(texts.video);
    var audio := new Label(texts.audio);
    var text := new Label(texts.text);
    var archive := new Label(texts.archive);
    var image := new Label(texts.image);
    var unknown := new Label(texts.unknown);
    labels := CategoryLabels(video, audio, text, archive, image, unknown);
  }

  /** The state of a file after the category branch. */
  ghost predicate CategoryLabelled(f: LabelFile, ls: CategoryLabels, p: Placement)
    reads f
  {
    && f.Labels == [CategoryLabel(ls, f.Type)]
    && f.FinalTargetFile == TargetPath(p, [CategoryLabel(ls, f.Type).Name], f.OriginalPath, f.ID)
  }

  /**
   * The category branch of `Automation`: every file gets the one shared
   * label of its type and its target for it; nothing can fail.
   */
  method LabelByCategory(files: array<LabelFile>, setting: LabelerSetting, texts: AutomationTexts)
      returns (errors: seq<AutomationError>, labels: CategoryLabels, progress: seq<int>)
    requires Unlabelled(files)
    modifies files[..]
    ensures errors == []
    ensures progress == Percentages(files.Length)
    ensures labels.video.Name == texts.video && labels.audio.Name == texts.audio && labels.text.Name == texts.text
    ensures labels.archive.Name == texts.archive && labels.image.Name == texts.image && labels.unknown.Name == texts.unknown
    ensures forall k :: 0 <= k < files.Length ==> CategoryLabelled(files[k], labels, setting.GetPlacement())
  {
    labels := NewCategoryLabels(texts);
    errors, progress := [], [];
    ghost var p := setting.GetPlacement();
    for i := 0 to files.Length
      invariant forall a, b :: 0 <= a < b < files.Length ==> files[a] != files[b]
      invariant setting.GetPlacement() == p
      invariant progress == ProgressUpTo(i, files.Length)
      invariant forall k :: 0 <= k < i ==> CategoryLabelled(files[k], labels, p)
      invariant forall k :: i <= k < files.Length ==>
        files[k].Labels == [] && files[k].FinalTargetFile == None
    {
      label Before:
      CategoryAt(files, i, labels, setting, p);
      forall k | 0 <= k < i
        ensures CategoryLabelled(files[k], labels, p)
      {
        assert old@Before(CategoryLabelled(files[k], labels, p));
      }
      progress := AdvanceProgress(progress, i, files.Length);
    }
  }

  /** The category step on the `i`-th of distinct files, stated for the whole array. */
  method CategoryAt(files: array<LabelFile>, i: nat, labels: CategoryLabels, setting: LabelerSetting, ghost p: Placement)
    requires i < files.Length && p == setting.GetPlacement()
    requires forall a, b :: 0 <= a < b < files.Length ==> files[a] != files[b]
    requires files[i].Labels == [] && files[i].FinalTargetFile == None
    modifies files[i]
    ensures CategoryLabelled(files[i], labels, p)
    ensures forall k :: 0 <= k < files.Length && k != i ==>
      files[k].Labels == old(files[k].Labels) && files[k].FinalTargetFile == old(files[k].FinalTargetFile)
    ensures forall k :: 0 <= k < files.Length && k != i && old(CategoryLabelled(files[k], labels, p)) ==>
      CategoryLabelled(files[k], labels, p)
  {
    var file := files[i];
    var target := LabelAndTarget(file, [CategoryLabel(labels, file.Type)], setting);
  }

  // --- By duration, file size or image size -------------------------------

  /** The settings the threshold branch compares against. */
  datatype Thresholds = Thresholds(mode: AutomationType, minSize: int, minWidth: int, minHeight: int)

  function ThresholdsOf(setting: LabelerSetting): Thresholds
    reads setting
  {
    Thresholds(setting.Automation, setting.AutomateFileSizeMinSize,
               setting.AutomateImageSizeMinWidth, setting.AutomateImageSizeMinHeight)
  }

  datatype Verdict = Smaller | Bigger | Unknown

  /**
   * What the threshold branch does to one file before asking for its target:
   * adds the label of a verdict, adds nothing now (the media-library probe
   * for audio and video runs later on the UI thread), or throws.
   */
  datatype Step = Labelled(verdict: Verdict) | NothingYet | Throws

  /** Bigger when at least the minimum: the thresholds are inclusive. */
  function AtLeast(value: int, minimum: int): Verdict
  {
    if value >= minimum then Bigger else Smaller
  }

  /** A larger measurement never yields a smaller verdict. */
  lemma AtLeastMonotone(a: int, b: int, minimum: int)
    requires a <= b && AtLeast(a, minimum) == Bigger
    ensures AtLeast(b, minimum) == Bigger
  {
  }

  /**
   * What the worker does to one file in the measuring modes before
   * `TargetFile`: a label of the verdict, a throwing probe, or nothing yet
   * where the label is left to a media-library callback.
   */
  function ThresholdStep(t: Thresholds, fileType: FileType, path: string, probes: Probes): Step
  {
    match t.mode
    case AutomateByDuration =>
      if fileType == Audio || fileType == Video then NothingYet else Labelled(Unknown)
    case AutomateByFileSize =>
      (match probes.fileLength(path)
       case None => Throws
       case Some(length) => Labelled(AtLeast(length, t.minSize)))
    case AutomateByImageSize =>
      if fileType == Image then
        (match probes.imageSize(path)
         case None => Throws
         case Some(size) =>
           Labelled(if size.1 >= t.minHeight && size.0 >= t.minWidth then Bigger else Smaller))
      else if fileType == Video then NothingYet
      else Labelled(Unknown)
    case _ => NothingYet
  }

  /** The three labels shared by the threshold branch. */
  datatype ThresholdLabels = ThresholdLabels(smaller: Label, bigger: Label, unknown: Label)

  /** The three labels, named by the localized texts. */
  method NewThresholdLabels(texts: AutomationTexts) returns (labels: ThresholdLabels)
    ensures labels.smaller.Name == texts.smaller && labels.bigger.Name == texts.bigger && labels.unknown.Name == texts.unknown
  {
    var smaller := new Label(texts.smaller);
    var bigger := new Label(texts.bigger);
    var unknown := new Label(texts.unknown);
    labels := ThresholdLabels(smaller, bigger, unknown);
  }

  /** The labels a step adds. */
  function StepLabels(ls: ThresholdLabels, s: Step): seq<Label>
  {
    match s
    case Labelled(Smaller) => [ls.smaller]
    case Labelled(Bigger) => [ls.bigger]
    case Labelled(Unknown) => [ls.unknown]
    case _ => []
  }

  /**
   * A file ends up on the error list when its probe throws or, in subfolder
   * mode, when it has no label yet, so that `Labels[0]` throws.
   */
  predicate ThresholdFails(f: LabelFile, t: Thresholds, p: Placement, probes: Probes)
  {
    var s := ThresholdStep(t, f.Type, f.OriginalPath, probes);
    s.Throws? || (s.NothingYet? && p.labelFilesBy == Subfolder)
  }

  /** The state of a file after the threshold branch. */
  ghost predicate ThresholdLabelled(f: LabelFile, ls: ThresholdLabels, t: Thresholds, p: Placement, probes: Probes)
    reads f
  {
    var s := ThresholdStep(t, f.Type, f.OriginalPath, probes);
    && f.Labels == StepLabels(ls, s)
    && f.FinalTargetFile == if s.Throws? then None else TargetPath(p, Names(StepLabels(ls, s)), f.OriginalPath, f.ID)
  }

  /**
   * One file of the threshold branch: a throwing probe adds nothing and
   * skips `TargetFile`; otherwise the verdict's label, if any, is added and
   * the target asked for, which throws in subfolder mode without a label.
   */
  method LabelOneByThreshold(file: LabelFile, labels: ThresholdLabels, t: Thresholds, setting: LabelerSetting, probes: Probes)
      returns (failed: bool)
    requires file.Labels == [] && file.FinalTargetFile == None
    modifies file
    ensures ThresholdLabelled(file, labels, t, setting.GetPlacement(), probes)
    ensures failed == ThresholdFails(file, t, setting.GetPlacement(), probes)
  {
    var step := ThresholdStep(t, file.Type, file.OriginalPath, probes);
    if step.Throws? {
      failed := true;
    } else {
      var tags := StepLabels(labels, step);
      var target := LabelAndTarget(file, tags, setting);
      TargetFailsIffNoLabel(setting.GetPlacement(), Names(tags), file.OriginalPath, file.ID);
      failed := target.None?;
    }
  }

  /**
   * The duration, file-size and image-size branch of `Automation`: each file
   * gets the label of its verdict and its target for it; a probe that throws
   * or a missing label in subfolder mode puts the file on the error list.
   */
  method LabelByThreshold(files: array<LabelFile>, setting: LabelerSetting, texts: AutomationTexts, probes: Probes)
      returns (errors: seq<AutomationError>, labels: ThresholdLabels, progress: seq<int>)
    requires Unlabelled(files)
    modifies files[..]
    ensures errors == ErrorsWhere(files[..], ThresholdRule(ThresholdsOf(setting), setting.GetPlacement(), probes))
    ensures progress == Percentages(files.Length)
    ensures labels.smaller.Name == texts.smaller && labels.bigger.Name == texts.bigger && labels.unknown.Name == texts.unknown
    ensures forall k :: 0 <= k < files.Length ==>
      ThresholdLabelled(files[k], labels, ThresholdsOf(setting), setting.GetPlacement(), probes)
  {
    labels := NewThresholdLabels(texts);
    errors, progress := [], [];
    var t := ThresholdsOf(setting);
    ghost var p := setting.GetPlacement();
    ghost var rule := ThresholdRule(t, p, probes);
    for i := 0 to files.Length
      invariant forall a, b :: 0 <= a < b < files.Length ==> files[a] != files[b]
      invariant setting.GetPlacement() == p
      invariant errors == ErrorsWhere(files[..i], rule)
      invariant progress == ProgressUpTo(i, files.Length)
      invariant forall k :: 0 <= k < i ==> ThresholdLabelled(files[k], labels, t, p, probes)
      invariant forall k :: i <= k < files.Length ==>
        files[k].Labels == [] && files[k].FinalTargetFile == None
    {
      var file := files[i];
      ErrorsWhereNext(files[..], i, rule);
      assert files[..][..i + 1] == files[..i + 1] && files[..][..i] == files[..i];
      label Before:
      var failed := ThresholdAt(files, i, labels, t, setting, probes, p);
      forall k | 0 <= k < i
        ensures ThresholdLabelled(files[k], labels, t, p, probes)
      {
        assert old@Before(ThresholdLabelled(files[k], labels, t, p, probes));
      }
      if failed {
        errors := errors + [ErrorOnFile(file.OriginalPath)];
      }
      progress := AdvanceProgress(progress, i, files.Length);
    }
    assert files[..files.Length] == files[..];
  }

  /** `LabelOneByThreshold` on the `i`-th of distinct files, stated for the whole array. */
  method ThresholdAt(files: array<LabelFile>, i: nat, labels: ThresholdLabels, t: Thresholds, setting: LabelerSetting,
                     probes: Probes, ghost p: Placement) returns (failed: bool)
    requires i < files.Length && p == setting.GetPlacement()
    requires forall a, b :: 0 <= a < b < files.Length ==> files[a] != files[b]
    requires files[i].Labels == [] && files[i].FinalTargetFile == None
    modifies files[i]
    ensures failed == ThresholdFails(files[i], t, p, probes)
    ensures ThresholdLabelled(files[i], labels, t, p, probes)
    ensures forall k :: 0 <= k < files.Length && k != i ==>
      files[k].Labels == old(files[k].Labels) && files[k].FinalTargetFile == old(files[k].FinalTargetFile)
    ensures forall k :: 0 <= k < files.Length && k != i && old(ThresholdLabelled(files[k], labels, t, p, probes)) ==>
      ThresholdLabelled(files[k], labels, t, p, probes)
  {
    failed := LabelOneByThreshold(files[i], labels, t, setting, probes);
  }

  /**
   * In subfolder mode the duration branch reports every audio and video file
   * as failed: its label is added only later, after `TargetFile` has already
   * thrown on the empty label list.
   */
  lemma DurationMediaFailsInSubfolders(f: LabelFile, t: Thresholds, p: Placement, probes: Probes)
    requires t.mode == AutomateByDuration && p.labelFilesBy == Subfolder
    ensures ThresholdFails(f, t, p, probes) <==> f.Type == Audio || f.Type == Video
  {
  }

  /** Outside the probes, every file gets exactly one label and a target. */
  lemma {:induction false} ThresholdLabelsOnce(f: LabelFile, ls: ThresholdLabels, t: Thresholds, p: Placement, probes: Probes)
    requires ThresholdStep(t, f.Type, f.OriginalPath, probes).Labelled?
    ensures |StepLabels(ls, ThresholdStep(t, f.Type, f.OriginalPath, probes))| == 1
    ensures !ThresholdFails(f, t, p, probes)
  {
  }

  // --- The whole job ------------------------------------------------------

  /** The errors of the branch the automation mode selects, before the empty-project check. */
  function BranchErrors(files: seq<LabelFile>, setting: LabelerSetting, probes: Probes): seq<AutomationError>
    reads setting
  {
    match setting.Automation
    case Manual => []
    case AutomateByFileType =>
      if setting.AutomateFileTypeUseExtensions then ErrorsWhere(files, NoExtension) else []
    case _ => ErrorsWhere(files, ThresholdRule(ThresholdsOf(setting), setting.GetPlacement(), probes))
  }

  /** The files `GetFiles` made for the enumerated paths, in order. */
  ghost predicate LoadedFrom(files: array<LabelFile>, paths: seq<string>)
    reads files
  {
    && files.Length == |paths|
    && Distinct(files[..])
    && forall k :: 0 <= k < files.Length ==>
         && files[k].OriginalPath == paths[k] && files[k].ID == k
         && files[k].Type == TypeOfExtension(FileExtensionOf(paths[k]))
  }

  /** The labels an automated branch creates and shares among the files. */
  datatype Labelling =
    | ByExtension(pool: seq<Label>)
    | ByCategory(categories: CategoryLabels)
    | ByThreshold(thresholds: ThresholdLabels)

  /**
   * Every file is in the state the branch selected by the automation mode
   * leaves it in, with the labels `l` that branch created and named.
   */
  ghost predicate BranchLabelled(files: array<LabelFile>, setting: LabelerSetting, texts: AutomationTexts, probes: Probes,
                                 l: Labelling)
    reads setting, files, files[..]
  {
    var p := setting.GetPlacement();
    match setting.Automation
    case Manual => Unlabelled(files)
    case AutomateByFileType =>
      if setting.AutomateFileTypeUseExtensions then
        && l.ByExtension? && NamesDistinct(l.pool)
        && forall k :: 0 <= k < files.Length ==> ExtensionLabelled(files[k], l.pool, p)
      else
        && l.ByCategory?
        && l.categories.video.Name == texts.video && l.categories.audio.Name == texts.audio
        && l.categories.text.Name == texts.text && l.categories.archive.Name == texts.archive
        && l.categories.image.Name == texts.image && l.categories.unknown.Name == texts.unknown
        && forall k :: 0 <= k < files.Length ==> CategoryLabelled(files[k], l.categories, p)
    case _ =>
      && l.ByThreshold?
      && l.thresholds.smaller.Name == texts.smaller && l.thresholds.bigger.Name == texts.bigger
      && l.thresholds.unknown.Name == texts.unknown
      && forall k :: 0 <= k < files.Length ==> ThresholdLabelled(files[k], l.thresholds, ThresholdsOf(setting), p, probes)
  }

  /**
   * The automated branches of `Automation`: labels every file by the
   * selected mode, returning the labels the branch shared among them.
   */
  method LabelAll(files: array<LabelFile>, setting: LabelerSetting, texts: AutomationTexts, probes: Probes)
      returns (errors: seq<AutomationError>, progress: seq<int>, ghost labelling: Labelling)
    requires Unlabelled(files) && setting.Automation != Manual
    modifies files[..]
    ensures errors == BranchErrors(files[..], setting, probes)
    ensures progress == Percentages(files.Length)
    ensures BranchLabelled(files, setting, texts, probes, labelling)
  {
    if setting.Automation == AutomateByFileType {
      if setting.AutomateFileTypeUseExtensions {
        var pool;
        errors, pool, progress := LabelByExtension(files, setting);
        labelling := ByExtension(pool);
      } else {
        var labels;
        errors, labels, progress := LabelByCategory(files, setting, texts);
        labelling := ByCategory(labels);
      }
    } else {
      var labels;
      errors, labels, progress := LabelByThreshold(files, setting, texts, probes);
      labelling := ByThreshold(labels);
    }
  }

  /**
   * `Automation`: loads the files; shows the error screen if that throws; in
   * manual mode passes the unlabelled files to the preview screen; otherwise
   * labels them by the selected mode and shows the error screen if any file
   * failed or there were none, the confirmation screen otherwise.
   */
  method Automation(setting: LabelerSetting, texts: AutomationTexts, probes: Probes)
      returns (next: NextView, files: array<LabelFile>, progress: seq<int>, ghost labelling: Labelling)
    ensures setting.FoundPaths(probes.enumerate).None? ==> next == ShowError([GettingFiles]) && progress == []
    ensures setting.FoundPaths(probes.enumerate).Some? ==>
      && fresh(files)
      && (forall k :: 0 <= k < files.Length ==> fresh(files[k]))
      && LoadedFrom(files, setting.FoundPaths(probes.enumerate).value)
    ensures setting.FoundPaths(probes.enumerate).Some? && setting.Automation == Manual ==>
      && next == ShowPreview && progress == []
      && Unlabelled(files)
    ensures setting.FoundPaths(probes.enumerate).Some? && setting.Automation != Manual ==>
      && progress == Percentages(files.Length)
      && next == Conclude(BranchErrors(files[..], setting, probes) + (if files.Length == 0 then [NoFilesLoaded] else []))
    ensures setting.FoundPaths(probes.enumerate).Some? ==> BranchLabelled(files, setting, texts, probes, labelling)
  {
    labelling := ByExtension([]);
    progress := [];
    var found := setting.GetFiles(probes.enumerate);
    if found.None? {
      files := new LabelFile[0];
      return ShowError([GettingFiles]), files, progress, labelling;
    }
    files := found.value;
    assert LoadedFrom(files, setting.FoundPaths(probes.enumerate).value);
    assert Unlabelled(files);
    if setting.Automation == Manual {
      return ShowPreview, files, progress, labelling;
    }
    next, progress, labelling := LabelLoaded(files, setting, texts, probes);
  }

  /** The automated part of `Automation`, once the files are loaded. */
  method LabelLoaded(files: array<LabelFile>, setting: LabelerSetting, texts: AutomationTexts, probes: Probes)
      returns (next: NextView, progress: seq<int>, ghost labelling: Labelling)
    requires Unlabelled(files) && setting.Automation != Manual
    modifies files[..]
    ensures progress == Percentages(files.Length)
    ensures next == Conclude(BranchErrors(files[..], setting, probes) + (if files.Length == 0 then [NoFilesLoaded] else []))
    ensures BranchLabelled(files, setting, texts, probes, labelling)
  {
    var errors;
    errors, progress, labelling := LabelAll(files, setting, texts, probes);
    if files.Length <= 0 {
      errors := errors + [NoFilesLoaded];
    }
    next := Conclude(errors);
  }
}
