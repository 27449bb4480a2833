/**
 * The retriever-specific settings of the GUI (`RetrieverSpecificInput`):
 * five tick boxes choosing which output descriptors to search and the
 * Bitcoin Core data directory, with an optional committed copy holding the
 * chosen descriptors as a list.
 *
 * The directory check (`canonicalize`, then `exists` and `is_dir` on the
 * result) is given as one predicate, passed to each call that consults it.
 */
module RetrieverSpecific {
  import opened Common
  import opened Text
  import opened GuiInput

  /** `bitceptron_retriever::covered_descriptors::CoveredDescriptors`. */
  datatype CoveredDescriptors = P2pk | P2pkh | P2wpkh | P2shwpkh | P2tr

  /** The position of each descriptor in the order `gui_to_in_use` pushes them. */
  function Rank(d: CoveredDescriptors): nat {
    match d
    case P2pk => 0
    case P2pkh => 1
    case P2wpkh => 2
    case P2shwpkh => 3
    case P2tr => 4
  }

  /** Each descriptor appears at most once, in push order. */
  predicate StrictlyOrdered(list: seq<CoveredDescriptors>) {
    forall i, j :: 0 <= i < j < |list| ==> Rank(list[i]) < Rank(list[j])
  }

  /** Data directory: stored trimmed; sane when it names an existing directory. */
  function NewDataDirGuiData(value: string, isDirectory: string -> bool): (r: GuiData)
    ensures r.value == Trim(value) && IsTrimmed(r.value)
    ensures r.sanity == isDirectory(r.value)
  {
    var dataDir := Trim(value);
    GuiData(dataDir, isDirectory(dataDir))
  }

  /** `RetrieverSpecificSettingFromGui`. */
  datatype RetrieverSpecificSettingFromGui = RetrieverSpecificSettingFromGui(
    p2pk: bool,
    p2pkh: bool,
    p2wpkh: bool,
    p2shwpkh: bool,
    p2tr: bool,
    dataDir: GuiData)
  {
    /** The tick box of descriptor `d` (the `get_gui_p2*` getters). */
    predicate Selects(d: CoveredDescriptors) {
      match d
      case P2pk => p2pk
      case P2pkh => p2pkh
      case P2wpkh => p2wpkh
      case P2shwpkh => p2shwpkh
      case P2tr => p2tr
    }

    /** `is_gui_selected_descriptors_sane`: at least one box is ticked. */
    predicate SelectsAny() {
      p2pk || p2pkh || p2wpkh || p2shwpkh || p2tr
    }

    /** `is_gui_input_sane`. */
    predicate IsSane() {
      dataDir.sanity && SelectsAny()
    }

    /** The number of ticked boxes. */
    function FlagCount(): nat {
      (if p2pk then 1 else 0) + (if p2pkh then 1 else 0) + (if p2wpkh then 1 else 0)
      + (if p2shwpkh then 1 else 0) + (if p2tr then 1 else 0)
    }
  }

  /** `list` holds exactly the ticked descriptors, each once, in push order. */
  predicate DescribesSelection(list: seq<CoveredDescriptors>, gui: RetrieverSpecificSettingFromGui) {
    && StrictlyOrdered(list)
    && forall d :: d in list <==> gui.Selects(d)
  }

  /** As `DescribesSelection`, for the descriptors ranked below `n` only. */
  predicate DescribesSelectionBelow(list: seq<CoveredDescriptors>, gui: RetrieverSpecificSettingFromGui, n: nat) {
    && StrictlyOrdered(list)
    && (forall d :: d in list <==> gui.Selects(d) && Rank(d) < n)
  }

  /** One conditional `push`: append `d` when its box is ticked. */
  function PushIf(list: seq<CoveredDescriptors>, gui: RetrieverSpecificSettingFromGui, d: CoveredDescriptors): (r: seq<CoveredDescriptors>)
    requires DescribesSelectionBelow(list, gui, Rank(d))
    ensures DescribesSelectionBelow(r, gui, Rank(d) + 1)
    ensures |r| == |list| + if gui.Selects(d) then 1 else 0
  {
    if gui.Selects(d) then
      var r := list + [d];
      assert forall i, j | 0 <= i < j < |r| :: Rank(r[i]) < Rank(r[j]) by {
        forall i, j | 0 <= i < j < |r|
          ensures Rank(r[i]) < Rank(r[j])
        {
          if j == |list| {
            assert r[i] == list[i] && list[i] in list;
          }
        }
      }
      r
    else
      list
  }

  /** Every descriptor is ranked below 5. */
  lemma DescribesAllRanks(list: seq<CoveredDescriptors>, gui: RetrieverSpecificSettingFromGui)
    requires DescribesSelectionBelow(list, gui, 5)
    ensures DescribesSelection(list, gui)
  {
  }

  lemma EmptyIffNoMembers(s: seq<CoveredDescriptors>)
    ensures |s| == 0 <==> forall d :: d !in s
  {
    if |s| > 0 {
      assert s[0] in s;
    }
  }

  /** The head of a list in push order is its least-ranked member; the tail holds the rest. */
  lemma HeadAndTail(a: seq<CoveredDescriptors>, d: CoveredDescriptors)
    requires StrictlyOrdered(a) && |a| > 0
    ensures d in a ==> Rank(a[0]) <= Rank(d)
    ensures d in a[1..] <==> d in a && d != a[0]
  {
    if d in a {
      var i :| 0 <= i < |a| && a[i] == d;
      if i > 0 {
        assert a[1..][i - 1] == d;
      }
    }
    if d in a[1..] {
      var i :| 0 <= i < |a| - 1 && a[1..][i] == d;
      assert Rank(a[0]) < Rank(a[i + 1]);
    }
  }

  /** Two lists of descriptors in push order with the same members are the same list. */
  lemma {:induction false} OrderedSameMembersEqual(a: seq<CoveredDescriptors>, b: seq<CoveredDescriptors>)
    requires StrictlyOrdered(a) && StrictlyOrdered(b)
    requires forall d :: d in a <==> d in b
    ensures a == b
    decreases |a|
  {
    if |a| == 0 || |b| == 0 {
      EmptyIffNoMembers(a);
      EmptyIffNoMembers(b);
    } else {
      HeadAndTail(a, b[0]);
      HeadAndTail(b, a[0]);
      assert a[0] in b && b[0] in a;
      assert Rank(a[0]) == Rank(b[0]);
      assert a[0] == b[0];
      forall d
        ensures d in a[1..] <==> d in b[1..]
      {
        HeadAndTail(a, d);
        HeadAndTail(b, d);
      }
      OrderedSameMembersEqual(a[1..], b[1..]);
      assert a == [a[0]] + a[1..] && b == [b[0]] + b[1..];
    }
  }

  /**
   * The list built by the five conditional pushes: the ticked descriptors
   * in push order.
   */
  function PushedDescriptors(gui: RetrieverSpecificSettingFromGui): (list: seq<CoveredDescriptors>)
    ensures DescribesSelection(list, gui)
    ensures |list| == gui.FlagCount()
  {
    PushIf(PushIf(PushIf(PushIf(PushIf([], gui, P2pk), gui, P2pkh), gui, P2wpkh), gui, P2shwpkh), gui, P2tr)
  }

  /**
   * A list describing the selection is determined by the tick boxes: it has
   * one entry per ticked box and is non-empty exactly when the selection is
   * sane.
   */
  lemma SelectionIsDetermined(list: seq<CoveredDescriptors>, gui: RetrieverSpecificSettingFromGui)
    requires DescribesSelection(list, gui)
    ensures list == PushedDescriptors(gui)
    ensures |list| == gui.FlagCount()
    ensures |list| >= 1 <==> gui.SelectsAny()
  {
    OrderedSameMembersEqual(list, PushedDescriptors(gui));
  }

  /**
   * `RetrieverSpecificSettingFromGui::default()`: every box ticked and an
   * empty data directory.
   */
  function DefaultRetrieverSpecificSettingFromGui(isDirectory: string -> bool): (g: RetrieverSpecificSettingFromGui)
    ensures forall d :: g.Selects(d)
    ensures g.dataDir == NewDataDirGuiData("", isDirectory) && g.dataDir.value == ""
  {
    TrimOfTrimmed("");
    RetrieverSpecificSettingFromGui(true, true, true, true, true, NewDataDirGuiData("", isDirectory))
  }

  /** Committing the default selection stores all five descriptors in push order. */
  lemma DefaultSelectsAllInOrder(isDirectory: string -> bool)
    ensures PushedDescriptors(DefaultRetrieverSpecificSettingFromGui(isDirectory)) == [P2pk, P2pkh, P2wpkh, P2shwpkh, P2tr]
  {
    var g := DefaultRetrieverSpecificSettingFromGui(isDirectory);
    var all := [P2pk, P2pkh, P2wpkh, P2shwpkh, P2tr];
    assert forall i :: 0 <= i < |all| ==> Rank(all[i]) == i;
    assert forall d :: d in all by {
      forall d ensures d in all {
        assert all[Rank(d)] == d;
      }
    }
    SelectionIsDetermined(all, g);
  }

  /**
   * `canonicalize` fails on the empty path, so "" never names a directory;
   * the default data directory is then not sane and the default settings
   * cannot be committed until a directory is entered.
   */
  lemma DefaultIsNotSane(isDirectory: string -> bool)
    requires !isDirectory("")
    ensures !DefaultRetrieverSpecificSettingFromGui(isDirectory).dataDir.sanity
    ensures !DefaultRetrieverSpecificSettingFromGui(isDirectory).IsSane()
  {
    TrimOfTrimmed("");
  }

  /**
   * The vector `gui_to_in_use` builds: one conditional `push` per tick box,
   * in the order P2pk, P2pkh, P2wpkh, P2shwpkh, P2tr.
   */
  method CollectSelectedDescriptors(gui: RetrieverSpecificSettingFromGui) returns (res: seq<CoveredDescriptors>)
    ensures DescribesSelection(res, gui)
    ensures |res| == gui.FlagCount()
  {
    res := [];
    ghost var before := res;
    if gui.p2pk {
      res := res + [P2pk];
    }
    assert res == PushIf(before, gui, P2pk);
    before := res;
    if gui.p2pkh {
      res := res + [P2pkh];
    }
    assert res == PushIf(before, gui, P2pkh);
    before := res;
    if gui.p2wpkh {
      res := res + [P2wpkh];
    }
    assert res == PushIf(before, gui, P2wpkh);
    before := res;
    if gui.p2shwpkh {
      res := res + [P2shwpkh];
    }
    assert res == PushIf(before, gui, P2shwpkh);
    before := res;
    if gui.p2tr {
      res := res + [P2tr];
    }
    assert res == PushIf(before, gui, P2tr);
    DescribesAllRanks(res, gui);
    SelectionIsDetermined(res, gui);
  }

  /** `RetrieverSpecificSettingInUse`. */
  datatype RetrieverSpecificSettingInUse = RetrieverSpecificSettingInUse(
    selectedDescriptors: seq<CoveredDescriptors>,
    dataDir: string)

  class RetrieverSpecificInput {
    var gui: RetrieverSpecificSettingFromGui
    var inUse: Option<RetrieverSpecificSettingInUse>

    /**
     * The data directory is stored trimmed, and a committed copy holds a
     * trimmed directory and a non-empty list in declaration order.
     */
    ghost predicate Valid()
      reads this
    {
      && IsTrimmed(gui.dataDir.value)
      && (inUse.Some? ==>
            && IsTrimmed(inUse.value.dataDir)
            && StrictlyOrdered(inUse.value.selectedDescriptors)
            && |inUse.value.selectedDescriptors| >= 1)
    }

    /** `RetrieverSpecificInput::new()`: the default GUI copy and nothing committed. */
    constructor (isDirectory: string -> bool)
      ensures Valid()
      ensures gui == DefaultRetrieverSpecificSettingFromGui(isDirectory) && inUse == None
    {
      gui := DefaultRetrieverSpecificSettingFromGui(isDirectory);
      inUse := None;
    }

    /**
     * The five `set_p2*_inclusion_from_gui_input` setters: only the box of
     * `d` changes. A box that then disagrees with the commit makes the
     * descriptors not fixed.
     */
    method SetInclusionFromGuiInput(d: CoveredDescriptors, selected: bool)
      requires Valid()
      modifies this
      ensures Valid() && inUse == old(inUse)
      ensures forall e :: gui.Selects(e) == if e == d then selected else old(gui.Selects(e))
      ensures gui.dataDir == old(gui.dataDir)
      ensures selected != InUseIncludes(d) ==> !IsSelectedDescriptorsFixed()
    {
      match d
      case P2pk => gui := gui.(p2pk := selected);
      case P2pkh => gui := gui.(p2pkh := selected);
      case P2wpkh => gui := gui.(p2wpkh := selected);
      case P2shwpkh => gui := gui.(p2shwpkh := selected);
      case P2tr => gui := gui.(p2tr := selected);
    }

    method SetDataDirFromGuiInput(dataDir: string, isDirectory: string -> bool)
      requires Valid()
      modifies this
      ensures Valid() && inUse == old(inUse)
      ensures gui == old(gui).(dataDir := NewDataDirGuiData(dataDir, isDirectory))
    {
      gui := gui.(dataDir := NewDataDirGuiData(dataDir, isDirectory));
    }

    /**
     * `gui_to_in_use`: when the GUI copy is sane, commit the ticked
     * descriptors as a list built by conditional pushes, together with the
     * data directory; otherwise fail and keep the previous committed copy.
     */
    method GuiToInUse() returns (r: Result<Unit, GuiError>)
      requires Valid()
      modifies this
      ensures Valid() && gui == old(gui)
      ensures r.Ok? <==> gui.IsSane()
      ensures r.Err? ==> r.error == GuiInputIsInsane && inUse == old(inUse)
      ensures r.Ok? ==> inUse.Some? && inUse.value.dataDir == gui.dataDir.value
      ensures r.Ok? ==> DescribesSelection(inUse.value.selectedDescriptors, gui)
      ensures r.Ok? ==> |inUse.value.selectedDescriptors| == gui.FlagCount()
      ensures r.Ok? ==> IsInputFixed()
    {
      if !gui.IsSane() {
        return Err(GuiInputIsInsane);
      }
      var res := CollectSelectedDescriptors(gui);
      inUse := Some(RetrieverSpecificSettingInUse(res, gui.dataDir.value));
      CommitFixesInput();
      r := Ok(Unit);
    }

    /** A committed copy that describes the GUI selection and data directory leaves every field fixed. */
    lemma CommitFixesInput()
      requires inUse.Some? && inUse.value.dataDir == gui.dataDir.value
      requires DescribesSelection(inUse.value.selectedDescriptors, gui)
      ensures IsInputFixed()
    {
      assert IsDataDirFixed();
      assert forall d :: gui.Selects(d) == InUseIncludes(d);
      assert gui.p2pk == InUseIncludes(P2pk) && gui.p2pkh == InUseIncludes(P2pkh);
      assert gui.p2wpkh == InUseIncludes(P2wpkh) && gui.p2shwpkh == InUseIncludes(P2shwpkh);
      assert gui.p2tr == InUseIncludes(P2tr);
    }

    /** Before any commit every membership getter is false, the list empty and the directory "". */
    lemma UncommittedReadsAsEmpty()
      requires inUse == None
      ensures forall d :: !InUseIncludes(d)
      ensures InUseSelectedDescriptors() == [] && InUseDataDir() == ""
      ensures !IsDataDirFixed() && !IsSelectedDescriptorsFixed() && !IsInputFixed()
    {
    }

    /** The `get_in_use_p2*` getters: membership in the committed list, false before any commit. */
    predicate InUseIncludes(d: CoveredDescriptors)
      reads this
    {
      inUse.Some? && d in inUse.value.selectedDescriptors
    }

    function InUseSelectedDescriptors(): seq<CoveredDescriptors>
      reads this
    {
      if inUse.Some? then inUse.value.selectedDescriptors else []
    }

    function InUseDataDir(): string
      reads this
    {
      if inUse.Some? then inUse.value.dataDir else ""
    }

    predicate IsDataDirFixed()
      reads this
    {
      inUse.Some? && gui.dataDir.value == InUseDataDir()
    }

    predicate IsSelectedDescriptorsFixed()
      reads this
    {
      && inUse.Some?
      && gui.p2pk == InUseIncludes(P2pk)
      && gui.p2pkh == InUseIncludes(P2pkh)
      && gui.p2wpkh == InUseIncludes(P2wpkh)
      && gui.p2shwpkh == InUseIncludes(P2shwpkh)
      && gui.p2tr == InUseIncludes(P2tr)
    }

    predicate IsInputFixed()
      reads this
    {
      IsDataDirFixed() && IsSelectedDescriptorsFixed()
    }
  }

  /** A fresh input, whose data directory is "", fails to commit. */
  method FreshInputCannotCommit(isDirectory: string -> bool) returns (r: Result<Unit, GuiError>)
    requires !isDirectory("")
    ensures r == Err(GuiInputIsInsane)
  {
    var input := new RetrieverSpecificInput(isDirectory);
    DefaultIsNotSane(isDirectory);
    r := input.GuiToInUse();
  }
}
