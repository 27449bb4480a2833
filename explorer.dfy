/**
 * The exploration settings of the retriever GUI (`ExplorerInput`): eight
 * fields as the user typed them, each text field carrying the sanity bit
 * its validator computed, and an optional committed copy ("in use") that
 * the "Fix Settings" action writes when every field is sane.
 *
 * The parsers of the external crates (BIP 32 derivation paths, the
 * retriever's exploration paths, BIP 39 mnemonics) are given as total
 * boolean functions: the model knows only their verdicts.
 */
module Explorer {
  import opened Common
  import opened Text
  import opened Decimal
  import opened GuiInput

  /** `bitcoin::Network`. */
  datatype Network = Bitcoin | Testnet | Signet | Regtest

  /** The verdicts (`is_ok()`) of the foreign parsers the validators call. */
  datatype ForeignParsers = ForeignParsers(
    isDerivationPath: string -> bool,   // `DerivationPath::from_str(p)`
    isExplorationPath: string -> bool,  // `ExplorationPath::new(None, p, 1, false)`
    isMnemonic: string -> bool)         // `bip39::Mnemonic::from_str(m)`

  /** No trimmed piece is rejected by `parses`: `!pieces.iter().any(|p| parse(p).is_err())`. */
  function NoPieceFails(pieces: seq<string>, parses: string -> bool): (ok: bool)
    ensures ok <==> forall i :: 0 <= i < |pieces| ==> parses(Trim(pieces[i]))
  {
    if |pieces| == 0 then true
    else parses(Trim(pieces[0])) && NoPieceFails(pieces[1..], parses)
  }

  // ---------------------------------------------------------------------
  // Field validators (`GuiInput::new` of each field type)
  // ---------------------------------------------------------------------

  /**
   * Base derivation paths: the text is kept as typed; it is sane when every
   * `;`-separated piece, trimmed, is a BIP 32 derivation path.
   */
  function NewBaseDerivationPathsGuiData(value: string, parsers: ForeignParsers): (r: GuiData)
    ensures r.value == value
    ensures r.sanity ==>
      forall i :: 0 <= i < |Split(value, ';')| ==> parsers.isDerivationPath(Trim(Split(value, ';')[i]))
    ensures (forall i :: 0 <= i < |Split(value, ';')| ==> parsers.isDerivationPath(Trim(Split(value, ';')[i])))
      ==> r.sanity
  {
    GuiData(value, NoPieceFails(Split(value, ';'), parsers.isDerivationPath))
  }

  /** Exploration path: stored trimmed; sane when the exploration-path parser accepts it. */
  function NewExplorationPathGuiData(value: string, parsers: ForeignParsers): (r: GuiData)
    ensures r.value == Trim(value) && IsTrimmed(r.value)
    ensures r.sanity == parsers.isExplorationPath(r.value)
  {
    var t := Trim(value);
    GuiData(t, parsers.isExplorationPath(t))
  }

  /** The depth check on already trimmed text: it parses as a `u32` that is at least one. */
  predicate DepthIsSane(t: string) {
    match ParseUnsigned(t, U32Max)
    case Some(n) => n >= 1
    case None => false
  }

  /**
   * Exploration depth: stored trimmed; sane exactly when the stored text is
   * a number from 1 to `u32::MAX`, written canonically after an optional
   * `+` and any number of leading zeros.
   */
  function NewExplorationDepthGuiData(value: string): (r: GuiData)
    ensures r.value == Trim(value)
    ensures r.sanity <==>
      exists plus: bool, zeros: nat, n: nat :: 1 <= n <= U32Max && r.value == PaddedForm(plus, zeros, n)
  {
    var t := Trim(value);
    DepthSaneIffPadded(t);
    GuiData(t, DepthIsSane(t))
  }

  lemma DepthSaneIffPadded(t: string)
    ensures DepthIsSane(t) <==>
      exists plus: bool, zeros: nat, n: nat :: 1 <= n <= U32Max && t == PaddedForm(plus, zeros, n)
  {
    if DepthIsSane(t) {
      var n := ParseUnsigned(t, U32Max).value;
      ParsedIsPadded(t, U32Max);
      var plus: bool, zeros: nat :| t == PaddedForm(plus, zeros, n);
      assert 1 <= n <= U32Max && t == PaddedForm(plus, zeros, n);
    }
    if exists plus: bool, zeros: nat, n: nat :: 1 <= n <= U32Max && t == PaddedForm(plus, zeros, n) {
      var plus: bool, zeros: nat, n: nat :| 1 <= n <= U32Max && t == PaddedForm(plus, zeros, n);
      ParseAcceptsPadded(plus, zeros, n, U32Max);
    }
  }

  /** Mnemonic: stored trimmed; sane when it is a BIP 39 mnemonic. */
  function NewMnemonicGuiData(value: string, parsers: ForeignParsers): (r: GuiData)
    ensures r.value == Trim(value) && IsTrimmed(r.value)
    ensures r.sanity == parsers.isMnemonic(r.value)
  {
    var t := Trim(value);
    GuiData(t, parsers.isMnemonic(t))
  }

  /** Passphrase: stored exactly as typed (spaces matter in a BIP 39 passphrase) and always sane. */
  function NewPassphraseGuiData(value: string): (r: GuiData)
    ensures r.value == value && r.sanity
  {
    GuiData(value, true)
  }

  /**
   * Unlike the other text fields the passphrase is not trimmed: surrounding
   * spaces are kept, and the empty passphrase is sane.
   */
  lemma PassphraseKeepsSpaces()
    ensures NewPassphraseGuiData(" pass ").value == " pass " != Trim(" pass ")
    ensures NewPassphraseGuiData("").sanity
  {
    assert IsWhitespace(' ');
  }

  /** Validating the text a validator stored reproduces the stored field: re-entering it changes nothing. */
  lemma {:induction false} RevalidateStored(value: string, parsers: ForeignParsers)
    ensures NewBaseDerivationPathsGuiData(NewBaseDerivationPathsGuiData(value, parsers).value, parsers)
            == NewBaseDerivationPathsGuiData(value, parsers)
    ensures NewExplorationPathGuiData(NewExplorationPathGuiData(value, parsers).value, parsers)
            == NewExplorationPathGuiData(value, parsers)
    ensures NewExplorationDepthGuiData(NewExplorationDepthGuiData(value).value)
            == NewExplorationDepthGuiData(value)
    ensures NewMnemonicGuiData(NewMnemonicGuiData(value, parsers).value, parsers)
            == NewMnemonicGuiData(value, parsers)
    ensures NewPassphraseGuiData(NewPassphraseGuiData(value).value) == NewPassphraseGuiData(value)
  {
    TrimIdempotent(value);
  }

  // ---------------------------------------------------------------------
  // The GUI copy and the committed copy
  // ---------------------------------------------------------------------

  /** `ExplorerSettingFromGui`: the fields as typed, with their sanity bits. */
  datatype ExplorerSettingFromGui = ExplorerSettingFromGui(
    basePaths: GuiData,
    basePathsFromPresets: bool,
    explorationPath: GuiData,
    sweep: bool,
    explorationDepth: GuiData,
    network: Network,
    mnemonic: GuiData,
    passphrase: GuiData)
  {
    /** `is_gui_input_sane`: every validated field is sane. */
    predicate IsSane() {
      basePaths.sanity && explorationDepth.sanity && explorationPath.sanity
      && passphrase.sanity && mnemonic.sanity
    }
  }

  /**
   * Every stored field is what its validator produces for the stored text:
   * trimmed where the validator trims, with the sanity bit it computes.
   */
  predicate Consistent(gui: ExplorerSettingFromGui, parsers: ForeignParsers) {
    && gui.basePaths.sanity == NoPieceFails(Split(gui.basePaths.value, ';'), parsers.isDerivationPath)
    && IsTrimmed(gui.explorationPath.value)
    && gui.explorationPath.sanity == parsers.isExplorationPath(gui.explorationPath.value)
    && IsTrimmed(gui.explorationDepth.value)
    && gui.explorationDepth.sanity == DepthIsSane(gui.explorationDepth.value)
    && IsTrimmed(gui.mnemonic.value)
    && gui.mnemonic.sanity == parsers.isMnemonic(gui.mnemonic.value)
    && gui.passphrase.sanity
  }

  /**
   * `ExplorerSettingFromGui::default()`, where `defaultExplorationPath` and
   * `defaultExplorationDepth` are the retriever crate's defaults.
   */
  function DefaultExplorerSettingFromGui(
    parsers: ForeignParsers, defaultExplorationPath: string, defaultExplorationDepth: nat): (g: ExplorerSettingFromGui)
    requires defaultExplorationDepth <= U32Max
    ensures Consistent(g, parsers)
    ensures g.basePaths.value == "m" && g.mnemonic.value == "" && g.passphrase.value == ""
    ensures !g.basePathsFromPresets && !g.sweep && g.network == Bitcoin
    ensures g.explorationDepth.value == ToDecimal(defaultExplorationDepth)
    ensures g.explorationDepth.sanity <==> defaultExplorationDepth >= 1
  {
    var depthText := ToDecimal(defaultExplorationDepth);
    TrimOfTrimmed(depthText);
    assert depthText[0] != '+';
    assert ParseUnsigned(depthText, U32Max) == Some(defaultExplorationDepth);
    ExplorerSettingFromGui(
      NewBaseDerivationPathsGuiData("m", parsers),
      false,
      NewExplorationPathGuiData(defaultExplorationPath, parsers),
      false,
      NewExplorationDepthGuiData(depthText),
      Bitcoin,
      NewMnemonicGuiData("", parsers),
      NewPassphraseGuiData(""))
  }

  /** `ExplorerSettingInUse`: the committed copy handed to the explorer. */
  datatype ExplorerSettingInUse = ExplorerSettingInUse(
    basePaths: seq<string>,
    basePathsFromPresets: bool,
    explorationPath: string,
    sweep: bool,
    explorationDepth: nat,
    network: Network,
    mnemonic: string,
    passphrase: string)

  /**
   * The committed copy `gui_to_in_use` builds from a sane GUI copy: the base
   * paths are the untrimmed `;`-pieces (which join back to the typed text),
   * the depth is the number its text denotes, and the other fields are
   * copied.
   */
  function InUseFromGui(gui: ExplorerSettingFromGui, parsers: ForeignParsers): (u: ExplorerSettingInUse)
    requires Consistent(gui, parsers) && gui.IsSane()
    ensures Join(u.basePaths, ';') == gui.basePaths.value
    ensures u.basePaths == Split(gui.basePaths.value, ';') && |u.basePaths| >= 1
    ensures forall i :: 0 <= i < |u.basePaths| ==>
              ';' !in u.basePaths[i] && parsers.isDerivationPath(Trim(u.basePaths[i]))
    ensures 1 <= u.explorationDepth <= U32Max
    ensures ParseUnsigned(gui.explorationDepth.value, U32Max) == Some(u.explorationDepth)
    ensures exists plus: bool, zeros: nat :: gui.explorationDepth.value == PaddedForm(plus, zeros, u.explorationDepth)
    ensures u.explorationPath == gui.explorationPath.value && parsers.isExplorationPath(u.explorationPath)
    ensures u.mnemonic == gui.mnemonic.value && parsers.isMnemonic(u.mnemonic)
    ensures u.passphrase == gui.passphrase.value
    ensures u.basePathsFromPresets == gui.basePathsFromPresets && u.sweep == gui.sweep
    ensures u.network == gui.network
  {
    var pieces := Split(gui.basePaths.value, ';');
    JoinSplit(gui.basePaths.value, ';');
    var depth := ParseUnsigned(gui.explorationDepth.value, U32Max).value;
    ParsedIsPadded(gui.explorationDepth.value, U32Max);
    ExplorerSettingInUse(
      pieces, gui.basePathsFromPresets, gui.explorationPath.value, gui.sweep,
      depth, gui.network, gui.mnemonic.value, gui.passphrase.value)
  }

  // ---------------------------------------------------------------------
  // Whether the GUI depth text agrees with the committed depth
  // ---------------------------------------------------------------------

  /** `is_exploration_depth_fixed` as written: the GUI text equals `to_string` of the committed depth. */
  predicate DepthTextMatchesAsWritten(text: string, depth: nat) {
    text == ToDecimal(depth)
  }

  /** The comparison evidently intended: the GUI text denotes the committed depth. */
  predicate DepthTextMatches(text: string, depth: nat) {
    ParseUnsigned(text, U32Max) == Some(depth)
  }

  /**
   * Committing a sane depth text always makes it match in the intended
   * sense; as written it matches only when the text was canonical.
   */
  lemma CommittedDepthMatches(text: string)
    requires DepthIsSane(text)
    ensures DepthTextMatches(text, ParseUnsigned(text, U32Max).value)
    ensures DepthTextMatchesAsWritten(text, ParseUnsigned(text, U32Max).value) <==> IsCanonicalDecimal(text)
  {
    RenderParsedIffCanonical(text, U32Max);
  }

  /** The depth "007" is sane and commits as 7, which the as-written comparison never sees as fixed. */
  lemma PaddedDepthNeverFixedAsWritten()
    ensures NewExplorationDepthGuiData("007") == GuiData("007", true)
    ensures DepthTextMatches("007", 7)
    ensures !DepthTextMatchesAsWritten("007", 7)
  {
    PaddedTextIsNotRestored();
    assert IsTrimmed("007");
    TrimOfTrimmed("007");
  }

  // ---------------------------------------------------------------------
  // The input object
  // ---------------------------------------------------------------------

  /** `bitceptron_retriever::ExplorerSetting`, in the argument order of `ExplorerSetting::new`. */
  datatype ExplorerSetting = ExplorerSetting(
    mnemonic: string,
    passphrase: string,
    basePaths: seq<string>,
    explorationPath: string,
    explorationDepth: nat,
    network: Network,
    sweep: bool)

  class ExplorerInput {
    const parsers: ForeignParsers
    var gui: ExplorerSettingFromGui
    var inUse: Option<ExplorerSettingInUse>

    /**
     * Every stored sanity bit is the one its validator computes, a
     * committed depth is a `u32` of at least one, and the committed base
     * paths are the `;`-separated pieces of the typed text, each a
     * derivation path once trimmed.
     */
    ghost predicate Valid()
      reads this
    {
      && Consistent(gui, parsers)
      && (inUse.Some? ==> 1 <= inUse.value.explorationDepth <= U32Max)
      && (inUse.Some? ==> |inUse.value.basePaths| >= 1)
      && (inUse.Some? ==> forall i :: 0 <= i < |inUse.value.basePaths| ==>
            ';' !in inUse.value.basePaths[i] && parsers.isDerivationPath(Trim(inUse.value.basePaths[i])))
    }

    /** `ExplorerInput::new()`: the default GUI copy and nothing committed. */
    constructor (parsers: ForeignParsers, defaultExplorationPath: string, defaultExplorationDepth: nat)
      requires defaultExplorationDepth <= U32Max
      ensures Valid() && this.parsers == parsers
      ensures gui == DefaultExplorerSettingFromGui(parsers, defaultExplorationPath, defaultExplorationDepth)
      ensures inUse == None
      ensures !IsInputFixed()
    {
      this.parsers := parsers;
      gui := DefaultExplorerSettingFromGui(parsers, defaultExplorationPath, defaultExplorationDepth);
      inUse := None;
    }

    method SetBaseDerivationPathsFromGuiInput(value: string)
      requires Valid()
      modifies this
      ensures Valid() && inUse == old(inUse)
      ensures gui == old(gui).(basePaths := NewBaseDerivationPathsGuiData(value, parsers))
    {
      gui := gui.(basePaths := NewBaseDerivationPathsGuiData(value, parsers));
    }

    method SetBaseDerivationPathsFromPresetsFromGuiInput(value: bool)
      requires Valid()
      modifies this
      ensures Valid() && inUse == old(inUse)
      ensures gui == old(gui).(basePathsFromPresets := value)
    {
      gui := gui.(basePathsFromPresets := value);
    }

    method SetExplorationPathFromGuiInput(value: string)
      requires Valid()
      modifies this
      ensures Valid() && inUse == old(inUse)
      ensures gui == old(gui).(explorationPath := NewExplorationPathGuiData(value, parsers))
    {
      gui := gui.(explorationPath := NewExplorationPathGuiData(value, parsers));
    }

    method SetSweepFromGuiInput(value: bool)
      requires Valid()
      modifies this
      ensures Valid() && inUse == old(inUse)
      ensures gui == old(gui).(sweep := value)
    {
      gui := gui.(sweep := value);
    }

    method SetExplorationDepthFromGuiInput(value: string)
      requires Valid()
      modifies this
      ensures Valid() && inUse == old(inUse)
      ensures gui == old(gui).(explorationDepth := NewExplorationDepthGuiData(value))
    {
      gui := gui.(explorationDepth := NewExplorationDepthGuiData(value));
    }

    method SetNetworkFromGuiInput(value: Network)
      requires Valid()
      modifies this
      ensures Valid() && inUse == old(inUse)
      ensures gui == old(gui).(network := value)
    {
      gui := gui.(network := value);
    }

    method SetMnemonicFromGuiInput(value: string)
      requires Valid()
      modifies this
      ensures Valid() && inUse == old(inUse)
      ensures gui == old(gui).(mnemonic := NewMnemonicGuiData(value, parsers))
    {
      gui := gui.(mnemonic := NewMnemonicGuiData(value, parsers));
    }

    method SetPassphraseFromGuiInput(value: string)
      requires Valid()
      modifies this
      ensures Valid() && inUse == old(inUse)
      ensures gui == old(gui).(passphrase := NewPassphraseGuiData(value))
    {
      gui := gui.(passphrase := NewPassphraseGuiData(value));
    }

    /**
     * `gui_to_in_use`: commit the GUI copy when it is sane, otherwise fail
     * and keep the previous committed copy. After a commit every field
     * counts as fixed; as written, the depth does so only for canonical text.
     */
    method GuiToInUse() returns (r: Result<Unit, GuiError>)
      requires Valid()
      modifies this
      ensures Valid() && gui == old(gui)
      ensures r.Ok? <==> gui.IsSane()
      ensures r.Err? ==> r.error == GuiInputIsInsane && inUse == old(inUse)
      ensures r.Ok? ==> inUse == Some(InUseFromGui(gui, parsers))
      ensures r.Ok? ==> IsInputFixed()
      ensures r.Ok? ==> (IsInputFixedAsWritten() <==> IsCanonicalDecimal(gui.explorationDepth.value))
    {
      if !gui.IsSane() {
        return Err(GuiInputIsInsane);
      }
      inUse := Some(InUseFromGui(gui, parsers));
      CommitFixesInput();
      r := Ok(Unit);
    }

    /**
     * Right after a commit every field counts as fixed; with the depth
     * compared as text (as written), only if that text is canonical.
     */
    lemma CommitFixesInput()
      requires Valid() && gui.IsSane() && inUse == Some(InUseFromGui(gui, parsers))
      ensures IsInputFixed()
      ensures IsInputFixedAsWritten() <==> IsCanonicalDecimal(gui.explorationDepth.value)
    {
      var text := gui.explorationDepth.value;
      assert InUseExplorationDepth() == ParseUnsigned(text, U32Max).value;
      CommittedDepthMatches(text);
      assert IsExplorationDepthFixed();
      assert IsExplorationDepthFixedAsWritten() <==> IsCanonicalDecimal(text);
      assert IsBaseDerivationPathsFixed();
      assert IsExplorationPathFixed() && IsPassphraseFixed() && IsMnemonicFixed();
      assert IsNetworkFixed() && IsSweepFixed() && IsBaseDerivationPathsFromPresetsFixed();
    }

    /** Before any commit the getters give their placeholders and no field counts as fixed. */
    lemma UncommittedReadsAsPlaceholders()
      requires inUse == None
      ensures InUseBaseDerivationPaths() == [""] && !InUseBaseDerivationPathsFromPresets()
      ensures InUseExplorationPath() == "" && !InUseSweep() && InUseExplorationDepth() == 0
      ensures InUseNetwork() == Bitcoin && InUseMnemonic() == "" && InUsePassphrase() == ""
      ensures !IsBaseDerivationPathsFixed() && !IsBaseDerivationPathsFromPresetsFixed()
      ensures !IsExplorationPathFixed() && !IsSweepFixed() && !IsExplorationDepthFixed()
      ensures !IsExplorationDepthFixedAsWritten() && !IsNetworkFixed()
      ensures !IsMnemonicFixed() && !IsPassphraseFixed()
      ensures !IsInputFixed() && !IsInputFixedAsWritten()
    {
    }

    // In-use getters: the committed value, or a fixed placeholder before any commit.

    function InUseBaseDerivationPaths(): seq<string>
      reads this
    {
      if inUse.Some? then inUse.value.basePaths else [""]
    }

    function InUseBaseDerivationPathsFromPresets(): bool
      reads this
    {
      if inUse.Some? then inUse.value.basePathsFromPresets else false
    }

    function InUseExplorationPath(): string
      reads this
    {
      if inUse.Some? then inUse.value.explorationPath else ""
    }

    function InUseSweep(): bool
      reads this
    {
      if inUse.Some? then inUse.value.sweep else false
    }

    function InUseExplorationDepth(): nat
      reads this
    {
      if inUse.Some? then inUse.value.explorationDepth else 0
    }

    function InUseNetwork(): Network
      reads this
    {
      if inUse.Some? then inUse.value.network else Bitcoin
    }

    function InUseMnemonic(): string
      reads this
    {
      if inUse.Some? then inUse.value.mnemonic else ""
    }

    function InUsePassphrase(): string
      reads this
    {
      if inUse.Some? then inUse.value.passphrase else ""
    }

    // Per-field "fixed" indicators: something is committed and the GUI text agrees with it.

    predicate IsBaseDerivationPathsFixed()
      reads this
    {
      inUse.Some? && gui.basePaths.value == Join(InUseBaseDerivationPaths(), ';')
    }

    predicate IsExplorationPathFixed()
      reads this
    {
      inUse.Some? && gui.explorationPath.value == InUseExplorationPath()
    }

    predicate IsExplorationDepthFixedAsWritten()
      reads this
    {
      inUse.Some? && DepthTextMatchesAsWritten(gui.explorationDepth.value, InUseExplorationDepth())
    }

    predicate IsExplorationDepthFixed()
      reads this
    {
      inUse.Some? && DepthTextMatches(gui.explorationDepth.value, InUseExplorationDepth())
    }

    predicate IsMnemonicFixed()
      reads this
    {
      inUse.Some? && gui.mnemonic.value == InUseMnemonic()
    }

    predicate IsPassphraseFixed()
      reads this
    {
      inUse.Some? && gui.passphrase.value == InUsePassphrase()
    }

    predicate IsSweepFixed()
      reads this
    {
      inUse.Some? && gui.sweep == InUseSweep()
    }

    predicate IsBaseDerivationPathsFromPresetsFixed()
      reads this
    {
      inUse.Some? && gui.basePathsFromPresets == InUseBaseDerivationPathsFromPresets()
    }

    predicate IsNetworkFixed()
      reads this
    {
      inUse.Some? && gui.network == InUseNetwork()
    }

    /** `is_input_fixed` as written, with the depth compared as text. */
    predicate IsInputFixedAsWritten()
      reads this
    {
      IsBaseDerivationPathsFixed() && IsExplorationDepthFixedAsWritten() && IsExplorationPathFixed()
      && IsPassphraseFixed() && IsMnemonicFixed() && IsNetworkFixed() && IsSweepFixed()
      && IsBaseDerivationPathsFromPresetsFixed()
    }

    /** `is_input_fixed` with the depth compared by the number its text denotes. */
    predicate IsInputFixed()
      reads this
    {
      IsBaseDerivationPathsFixed() && IsExplorationDepthFixed() && IsExplorationPathFixed()
      && IsPassphraseFixed() && IsMnemonicFixed() && IsNetworkFixed() && IsSweepFixed()
      && IsBaseDerivationPathsFromPresetsFixed()
    }

    /**
     * `is_input_fixed` as written is stricter than the corrected check: it
     * implies it, and once the corrected check holds it adds exactly that the
     * depth text is canonical. So `to_explorer_setting` refuses a committed
     * padded depth such as "007".
     */
    lemma AsWrittenGuardIsStricter()
      requires Valid()
      ensures IsInputFixedAsWritten() ==> IsInputFixed()
      ensures IsInputFixed() ==> (IsInputFixedAsWritten() <==> IsCanonicalDecimal(gui.explorationDepth.value))
    {
      var text := gui.explorationDepth.value;
      if IsExplorationDepthFixedAsWritten() {
        var d := InUseExplorationDepth();
        assert text == ToDecimal(d) && text[0] != '+';
        assert DepthTextMatches(text, d);
      }
      if IsExplorationDepthFixed() {
        RenderParsedIffCanonical(text, U32Max);
      }
    }

    /**
     * `to_explorer_setting`: only defined once `is_input_fixed`, as written,
     * holds (the source panics otherwise); the setting then carries exactly
     * what the GUI shows.
     */
    function ToExplorerSetting(): (s: ExplorerSetting)
      reads this
      requires Valid() && IsInputFixedAsWritten()
      ensures Join(s.basePaths, ';') == gui.basePaths.value
      ensures s.basePaths == Split(gui.basePaths.value, ';')
      ensures forall i :: 0 <= i < |s.basePaths| ==> parsers.isDerivationPath(Trim(s.basePaths[i]))
      ensures gui.explorationDepth.value == ToDecimal(s.explorationDepth) && 1 <= s.explorationDepth <= U32Max
      ensures ParseUnsigned(gui.explorationDepth.value, U32Max) == Some(s.explorationDepth)
      ensures s.explorationPath == gui.explorationPath.value
      ensures s.mnemonic == gui.mnemonic.value && s.passphrase == gui.passphrase.value
      ensures s.network == gui.network && s.sweep == gui.sweep
    {
      assert gui.explorationDepth.value[0] != '+';
      SplitJoin(InUseBaseDerivationPaths(), ';');
      ExplorerSetting(
        InUseMnemonic(), InUsePassphrase(), InUseBaseDerivationPaths(), InUseExplorationPath(),
        InUseExplorationDepth(), InUseNetwork(), InUseSweep())
    }
  }
}
