/**
 * The Bitcoin Core RPC client settings of the retriever GUI
 * (`BitcoincoreClientInput`): URL, RPC port, timeout and cookie path as
 * typed, each with the sanity bit its validator computed, and an optional
 * committed copy.
 *
 * The filesystem queries of the cookie-path validator are given as a
 * `FileSystem` of two predicates, passed to each call that consults it.
 */
module BitcoincoreClient {
  import opened Common
  import opened Text
  import opened Decimal
  import opened GuiInput

  // ---------------------------------------------------------------------
  // The URL pattern `^\d+.\d+.\d+.\d+$`
  // ---------------------------------------------------------------------

  /** What the regular-expression `.` matches: any character but a line feed. */
  predicate IsRegexDot(c: char) {
    c != '\n'
  }

  /** `s` matches the URL pattern with its three `.` at positions `i`, `j` and `k`. */
  predicate UrlPatternAt(s: string, i: int, j: int, k: int) {
    && 0 < i && i + 1 < j && j + 1 < k && k + 1 < |s|
    && IsDigitRun(s[..i]) && IsRegexDot(s[i])
    && IsDigitRun(s[i + 1..j]) && IsRegexDot(s[j])
    && IsDigitRun(s[j + 1..k]) && IsRegexDot(s[k])
    && IsDigitRun(s[k + 1..])
  }

  /**
   * The whole of `s` matches `^\d+.\d+.\d+.\d+$`: four runs of digits, each
   * pair separated by one character that is not a line feed.
   */
  predicate MatchesUrlPattern(s: string) {
    exists i, j, k | 0 <= i < j < k < |s| :: UrlPatternAt(s, i, j, k)
  }

  /** Text that matches is at least seven characters, begins and ends with a digit and holds no line feed. */
  lemma UrlPatternShape(s: string)
    requires MatchesUrlPattern(s)
    ensures |s| >= 7 && IsAsciiDigit(s[0]) && IsAsciiDigit(s[|s| - 1])
    ensures forall p :: 0 <= p < |s| ==> s[p] != '\n'
    ensures IsTrimmed(s)
  {
    var i, j, k :| 0 <= i < j < k < |s| && UrlPatternAt(s, i, j, k);
    assert s[..i][0] == s[0];
    assert s[k + 1..][|s| - k - 2] == s[|s| - 1];
    forall p | 0 <= p < |s|
      ensures s[p] != '\n'
    {
      if p < i {
        assert s[..i][p] == s[p];
      } else if i < p < j {
        assert s[i + 1..j][p - i - 1] == s[p];
      } else if j < p < k {
        assert s[j + 1..k][p - j - 1] == s[p];
      } else if k < p {
        assert s[k + 1..][p - k - 1] == s[p];
      }
    }
  }

  /** Four runs of digits joined by dots (a dotted IPv4 address) match. */
  lemma DottedQuadMatches(a: string, b: string, c: string, d: string)
    requires IsDigitRun(a) && IsDigitRun(b) && IsDigitRun(c) && IsDigitRun(d)
    ensures MatchesUrlPattern(a + "." + b + "." + c + "." + d)
  {
    var s := a + "." + b + "." + c + "." + d;
    var i := |a|;
    var j := i + 1 + |b|;
    var k := j + 1 + |c|;
    assert s[..i] == a && s[i + 1..j] == b && s[j + 1..k] == c && s[k + 1..] == d;
    assert s[i] == '.' && s[j] == '.' && s[k] == '.';
    assert UrlPatternAt(s, i, j, k);
  }

  /**
   * The `.` of the pattern is not escaped: any character other than a line
   * feed separates the groups, digits included; host names never match.
   */
  lemma UrlPatternIsLoose()
    ensures MatchesUrlPattern("1a2b3c4")
    ensures MatchesUrlPattern("1234567")
    ensures !MatchesUrlPattern("localhost")
    ensures !MatchesUrlPattern("127.0.0.1\n")
  {
    assert UrlPatternAt("1a2b3c4", 1, 3, 5);
    assert UrlPatternAt("1234567", 1, 3, 5);
    if MatchesUrlPattern("localhost") {
      UrlPatternShape("localhost");
    }
    if MatchesUrlPattern("127.0.0.1\n") {
      UrlPatternShape("127.0.0.1\n");
    }
  }

  // ---------------------------------------------------------------------
  // The cookie path
  // ---------------------------------------------------------------------

  /** The filesystem as the cookie-path validator sees it. */
  datatype FileSystem = FileSystem(pathExists: string -> bool, isFile: string -> bool)

  /** The pieces between `/` that name something: empty pieces and `.` are not components. */
  function NamedComponents(pieces: seq<string>): (c: seq<string>)
    ensures forall x :: x in c <==> x in pieces && x != "" && x != "."
  {
    if |pieces| == 0 then []
    else (if pieces[0] == "" || pieces[0] == "." then [] else [pieces[0]]) + NamedComponents(pieces[1..])
  }

  lemma {:induction false} NamedComponentsAppend(x: seq<string>, y: seq<string>)
    ensures NamedComponents(x + y) == NamedComponents(x) + NamedComponents(y)
  {
    if |x| > 0 {
      var head := if x[0] == "" || x[0] == "." then [] else [x[0]];
      assert (x + y)[0] == x[0] && (x + y)[1..] == x[1..] + y;
      NamedComponentsAppend(x[1..], y);
      assert NamedComponents(x + y) == head + (NamedComponents(x[1..]) + NamedComponents(y));
      assert NamedComponents(x) == head + NamedComponents(x[1..]);
    } else {
      assert x + y == y;
    }
  }

  /** The components of a Unix path, as `Path::components` yields them for comparison. */
  function PathComponents(p: string): seq<string> {
    NamedComponents(Split(p, '/'))
  }

  /** `Path::ends_with(".cookie")`: the last component is exactly `.cookie`. */
  predicate EndsWithCookie(p: string) {
    var c := PathComponents(p);
    |c| >= 1 && c[|c| - 1] == ".cookie"
  }

  /** The components of `d/name` are those of `d` followed by those of `name`. */
  lemma ComponentsOfJoinedPath(d: string, name: string)
    ensures PathComponents(d + "/" + name) == PathComponents(d) + PathComponents(name)
  {
    SplitAround(d, name, '/');
    assert d + "/" + name == d + ['/'] + name;
    NamedComponentsAppend(Split(d, '/'), Split(name, '/'));
  }

  /**
   * A path whose last piece is a file name ends with `.cookie` exactly when
   * that name is `.cookie`: the comparison is by whole component, so
   * `my.cookie` does not qualify.
   */
  lemma CookieFileNameIsExact(d: string, name: string)
    requires '/' !in name && name != "" && name != "."
    ensures EndsWithCookie(d + "/" + name) <==> name == ".cookie"
  {
    ComponentsOfJoinedPath(d, name);
    SplitWithoutSeparator(name, '/');
    assert [name][1..] == [];
    assert NamedComponents([name]) == [name] + NamedComponents([]);
    assert PathComponents(name) == NamedComponents([name]);
  }

  /** In any directory, the file `.cookie` qualifies and `bitcoin.cookie` does not. */
  lemma CookieFileInDirectory(d: string)
    ensures EndsWithCookie(d + "/.cookie")
    ensures !EndsWithCookie(d + "/bitcoin.cookie")
  {
    CookieFileNameIsExact(d, ".cookie");
    assert d + "/" + ".cookie" == d + "/.cookie";
    CookieFileNameIsExact(d, "bitcoin.cookie");
    assert d + "/" + "bitcoin.cookie" == d + "/bitcoin.cookie";
  }

  // ---------------------------------------------------------------------
  // Field validators
  // ---------------------------------------------------------------------

  /**
   * URL: the pattern is tested on the text as given and the text is stored
   * trimmed; text that matches is stored unchanged.
   */
  function NewUrlGuiData(url: string): (r: GuiData)
    ensures r.value == Trim(url)
    ensures r.sanity <==> MatchesUrlPattern(url)
    ensures r.sanity ==> r.value == url
  {
    if MatchesUrlPattern(url) then
      UrlPatternShape(url);
      TrimOfTrimmed(url);
      GuiData(Trim(url), true)
    else
      GuiData(Trim(url), false)
  }

  /** RPC port: stored as given; sane when it is one or more digits (`^\d+$`). */
  function NewRpcPortGuiData(rpcPort: string): (r: GuiData)
    ensures r.value == rpcPort
    ensures r.sanity <==> IsDigitRun(rpcPort)
  {
    GuiData(rpcPort, IsDigitRun(rpcPort))
  }

  /**
   * The port check has no range: "0", a number above 65535 and a
   * zero-padded port are all sane, while an empty or signed port is not.
   */
  lemma PortHasNoRangeCheck()
    ensures NewRpcPortGuiData("0").sanity
    ensures NewRpcPortGuiData("99999").sanity
    ensures NewRpcPortGuiData("08332").sanity
    ensures !NewRpcPortGuiData("").sanity && !NewRpcPortGuiData("+8332").sanity
  {
    assert "+8332"[0] == '+' && !IsAsciiDigit('+');
  }

  /** The timeout check: one or more digits (`^\d+$`) that parse as a `u64`. */
  predicate TimeoutIsSane(t: string) {
    IsDigitRun(t) && ParseUnsigned(t, U64Max).Some?
  }

  /**
   * Timeout: stored as given; sane exactly when it is a `u64` written
   * canonically after any number of leading zeros.
   */
  function NewTimeoutGuiData(timeout: string): (r: GuiData)
    ensures r.value == timeout
    ensures r.sanity <==> exists zeros: nat, n: nat :: n <= U64Max && timeout == PaddedForm(false, zeros, n)
  {
    TimeoutSaneIffPadded(timeout);
    GuiData(timeout, TimeoutIsSane(timeout))
  }

  lemma TimeoutSaneIffPadded(t: string)
    ensures TimeoutIsSane(t) <==> exists zeros: nat, n: nat :: n <= U64Max && t == PaddedForm(false, zeros, n)
  {
    if TimeoutIsSane(t) {
      SaneTimeoutIsPadded(t);
    }
    if exists zeros: nat, n: nat :: n <= U64Max && t == PaddedForm(false, zeros, n) {
      var zeros: nat, n: nat :| n <= U64Max && t == PaddedForm(false, zeros, n);
      PaddedTimeoutIsSane(zeros, n);
    }
  }

  lemma PaddedTimeoutIsSane(zeros: nat, n: nat)
    requires n <= U64Max
    ensures TimeoutIsSane(PaddedForm(false, zeros, n))
  {
    var t := PaddedForm(false, zeros, n);
    assert t == Zeros(zeros) + ToDecimal(n);
    LeadingZerosValue(zeros, ToDecimal(n));
    ParseAcceptsPadded(false, zeros, n, U64Max);
  }

  /** A sane timeout is the canonical text of the number it parses to, after some leading zeros. */
  lemma SaneTimeoutIsPadded(t: string)
    requires TimeoutIsSane(t)
    ensures exists zeros: nat :: t == PaddedForm(false, zeros, ParseUnsigned(t, U64Max).value)
  {
    var zeros := DigitsArePadded(t);
    assert t == PaddedForm(false, zeros, DigitsValue(t));
  }

  /** Cookie path: stored as given; sane when it exists, is a file and its last component is `.cookie`. */
  function NewCookiePathGuiData(cookiePath: string, fs: FileSystem): (r: GuiData)
    ensures r.value == cookiePath
    ensures r.sanity <==> fs.pathExists(cookiePath) && fs.isFile(cookiePath) && EndsWithCookie(cookiePath)
  {
    GuiData(cookiePath, fs.pathExists(cookiePath) && fs.isFile(cookiePath) && EndsWithCookie(cookiePath))
  }

  // ---------------------------------------------------------------------
  // The GUI copy and the committed copy
  // ---------------------------------------------------------------------

  /** `BitcoincoreClientSettingFromGui`. */
  datatype BitcoincoreClientSettingFromGui = BitcoincoreClientSettingFromGui(
    url: GuiData,
    rpcPort: GuiData,
    timeout: GuiData,
    cookiePath: GuiData)
  {
    /** `is_gui_input_sane`: all four fields are sane. */
    predicate IsSane() {
      url.sanity && rpcPort.sanity && timeout.sanity && cookiePath.sanity
    }
  }

  /**
   * What the stored sanity bits guarantee about the stored text. The
   * filesystem part of the cookie check is not repeated: the filesystem may
   * have changed since the path was set.
   */
  predicate Consistent(gui: BitcoincoreClientSettingFromGui) {
    && (gui.url.sanity ==> MatchesUrlPattern(gui.url.value))
    && gui.rpcPort.sanity == IsDigitRun(gui.rpcPort.value)
    && gui.timeout.sanity == TimeoutIsSane(gui.timeout.value)
    && (gui.cookiePath.sanity ==> EndsWithCookie(gui.cookiePath.value))
  }

  /**
   * `BitcoincoreClientSettingFromGui::default()`, given the retriever
   * crate's default URL, port and timeout. The empty cookie path is never
   * sane, so the default settings cannot be committed as they are.
   */
  function DefaultBitcoincoreClientSettingFromGui(
    defaultUrl: string, defaultRpcPort: string, defaultTimeoutSeconds: nat, fs: FileSystem): (g: BitcoincoreClientSettingFromGui)
    requires defaultTimeoutSeconds <= U64Max
    ensures Consistent(g)
    ensures g.url.value == Trim(defaultUrl) && g.rpcPort.value == defaultRpcPort
    ensures g.timeout == GuiData(ToDecimal(defaultTimeoutSeconds), true)
    ensures g.cookiePath == GuiData("", false)
    ensures !g.IsSane()
  {
    var timeoutText := ToDecimal(defaultTimeoutSeconds);
    assert timeoutText[0] != '+';
    assert ParseUnsigned(timeoutText, U64Max) == Some(defaultTimeoutSeconds);
    assert Split("", '/') == [""];
    BitcoincoreClientSettingFromGui(
      NewUrlGuiData(defaultUrl),
      NewRpcPortGuiData(defaultRpcPort),
      NewTimeoutGuiData(timeoutText),
      NewCookiePathGuiData("", fs))
  }

  /** `BitcoincoreClientSettingInUse`. */
  datatype BitcoincoreClientSettingInUse = BitcoincoreClientSettingInUse(
    url: string,
    rpcPort: string,
    timeoutSeconds: nat,
    cookiePath: string)

  /**
   * The committed copy `gui_to_in_use` builds from a sane GUI copy: text
   * fields copied, the timeout parsed.
   */
  function InUseFromGui(gui: BitcoincoreClientSettingFromGui): (u: BitcoincoreClientSettingInUse)
    requires Consistent(gui) && gui.IsSane()
    ensures u.url == gui.url.value && MatchesUrlPattern(u.url)
    ensures u.rpcPort == gui.rpcPort.value && IsDigitRun(u.rpcPort)
    ensures u.timeoutSeconds <= U64Max
    ensures ParseUnsigned(gui.timeout.value, U64Max) == Some(u.timeoutSeconds)
    ensures exists zeros: nat :: gui.timeout.value == PaddedForm(false, zeros, u.timeoutSeconds)
    ensures u.cookiePath == gui.cookiePath.value && EndsWithCookie(u.cookiePath)
  {
    var seconds := ParseUnsigned(gui.timeout.value, U64Max).value;
    SaneTimeoutIsPadded(gui.timeout.value);
    BitcoincoreClientSettingInUse(gui.url.value, gui.rpcPort.value, seconds, gui.cookiePath.value)
  }

  /** `is_timeout_fixed` as written: the GUI text equals `to_string` of the committed timeout. */
  predicate TimeoutTextMatchesAsWritten(text: string, seconds: nat) {
    text == ToDecimal(seconds)
  }

  /** The comparison evidently intended: the GUI text denotes the committed timeout. */
  predicate TimeoutTextMatches(text: string, seconds: nat) {
    ParseUnsigned(text, U64Max) == Some(seconds)
  }

  /**
   * Committing a sane timeout always makes it match in the intended sense;
   * as written it matches only when the text has no leading zero.
   */
  lemma CommittedTimeoutMatches(text: string)
    requires TimeoutIsSane(text)
    ensures TimeoutTextMatches(text, ParseUnsigned(text, U64Max).value)
    ensures TimeoutTextMatchesAsWritten(text, ParseUnsigned(text, U64Max).value) <==> IsCanonicalDecimal(text)
  {
    RenderParsedIffCanonical(text, U64Max);
  }

  /** The timeout "030" is sane and commits as 30, which the as-written comparison never sees as fixed. */
  lemma PaddedTimeoutNeverFixedAsWritten()
    ensures NewTimeoutGuiData("030") == GuiData("030", true)
    ensures TimeoutTextMatches("030", 30)
    ensures !TimeoutTextMatchesAsWritten("030", 30)
  {
    assert "030" == PaddedForm(false, 1, 30);
    ParseAcceptsPadded(false, 1, 30, U64Max);
    assert ToDecimal(30)[0] == '3';
  }

  // ---------------------------------------------------------------------
  // The input object
  // ---------------------------------------------------------------------

  class BitcoincoreClientInput {
    var gui: BitcoincoreClientSettingFromGui
    var inUse: Option<BitcoincoreClientSettingInUse>

    ghost predicate Valid()
      reads this
    {
      Consistent(gui)
    }

    /** `BitcoincoreClientInput::new()`: the default GUI copy and nothing committed. */
    constructor (defaultUrl: string, defaultRpcPort: string, defaultTimeoutSeconds: nat, fs: FileSystem)
      requires defaultTimeoutSeconds <= U64Max
      ensures Valid()
      ensures gui == DefaultBitcoincoreClientSettingFromGui(defaultUrl, defaultRpcPort, defaultTimeoutSeconds, fs)
      ensures inUse == None
    {
      gui := DefaultBitcoincoreClientSettingFromGui(defaultUrl, defaultRpcPort, defaultTimeoutSeconds, fs);
      inUse := None;
    }

    method SetUrlFromGuiInput(url: string)
      requires Valid()
      modifies this
      ensures Valid() && inUse == old(inUse)
      ensures gui == old(gui).(url := NewUrlGuiData(Trim(url)))
    {
      gui := gui.(url := NewUrlGuiData(Trim(url)));
    }

    method SetRpcPortFromGuiInput(rpcPort: string)
      requires Valid()
      modifies this
      ensures Valid() && inUse == old(inUse)
      ensures gui == old(gui).(rpcPort := NewRpcPortGuiData(Trim(rpcPort)))
    {
      gui := gui.(rpcPort := NewRpcPortGuiData(Trim(rpcPort)));
    }

    method SetTimeoutFromGuiInput(timeout: string)
      requires Valid()
      modifies this
      ensures Valid() && inUse == old(inUse)
      ensures gui == old(gui).(timeout := NewTimeoutGuiData(Trim(timeout)))
    {
      gui := gui.(timeout := NewTimeoutGuiData(Trim(timeout)));
    }

    method SetCookiePathFromGuiInput(cookiePath: string, fs: FileSystem)
      requires Valid()
      modifies this
      ensures Valid() && inUse == old(inUse)
      ensures gui == old(gui).(cookiePath := NewCookiePathGuiData(Trim(cookiePath), fs))
    {
      gui := gui.(cookiePath := NewCookiePathGuiData(Trim(cookiePath), fs));
    }

    /**
     * `gui_to_in_use`: commit the GUI copy when it is sane, otherwise fail
     * and keep the previous committed copy.
     */
    method GuiToInUse() returns (r: Result<Unit, GuiError>)
      requires Valid()
      modifies this
      ensures Valid() && gui == old(gui)
      ensures r.Ok? <==> gui.IsSane()
      ensures r.Err? ==> r.error == GuiInputIsInsane && inUse == old(inUse)
      ensures r.Ok? ==> inUse == Some(InUseFromGui(gui))
      ensures r.Ok? ==> IsInputFixed()
      ensures r.Ok? ==> (IsInputFixedAsWritten() <==> IsCanonicalDecimal(gui.timeout.value))
    {
      if !gui.IsSane() {
        return Err(GuiInputIsInsane);
      }
      inUse := Some(InUseFromGui(gui));
      CommitFixesInput();
      r := Ok(Unit);
    }

    /**
     * Right after a commit every field counts as fixed; with the checks as
     * written, only if the timeout text has no leading zero.
     */
    lemma CommitFixesInput()
      requires Valid() && gui.IsSane() && inUse == Some(InUseFromGui(gui))
      ensures IsInputFixed()
      ensures IsInputFixedAsWritten() <==> IsCanonicalDecimal(gui.timeout.value)
    {
      var text := gui.timeout.value;
      assert inUse.value.timeoutSeconds == ParseUnsigned(text, U64Max).value;
      CommittedTimeoutMatches(text);
      assert IsTimeoutFixed();
      assert IsTimeoutFixedAsWritten() <==> IsCanonicalDecimal(text);
      assert IsUrlFixed() && IsRpcPortFixed() && IsCookiePathFixed();
    }

    /**
     * Before any commit the getters give "" and no per-field indicator is on,
     * yet the as-written `is_input_fixed` holds whenever all four GUI texts
     * are empty.
     */
    lemma UncommittedReadsAsEmpty()
      requires inUse == None
      ensures InUseUrl() == "" && InUseRpcPort() == "" && InUseTimeout() == "" && InUseCookiePath() == ""
      ensures !IsUrlFixed() && !IsRpcPortFixed() && !IsTimeoutFixed() && !IsTimeoutFixedAsWritten()
      ensures !IsCookiePathFixed() && !IsInputFixed()
      ensures IsInputFixedAsWritten() <==>
        gui.url.value == "" && gui.rpcPort.value == "" && gui.timeout.value == "" && gui.cookiePath.value == ""
    {
    }

    // In-use getters: the committed text, or "" before any commit.

    function InUseUrl(): string
      reads this
    {
      if inUse.Some? then inUse.value.url else ""
    }

    function InUseRpcPort(): string
      reads this
    {
      if inUse.Some? then inUse.value.rpcPort else ""
    }

    /** The committed timeout rendered by `to_string`. */
    function InUseTimeout(): string
      reads this
    {
      if inUse.Some? then ToDecimal(inUse.value.timeoutSeconds) else ""
    }

    function InUseCookiePath(): string
      reads this
    {
      if inUse.Some? then inUse.value.cookiePath else ""
    }

    predicate IsUrlFixed()
      reads this
    {
      inUse.Some? && gui.url.value == InUseUrl()
    }

    predicate IsRpcPortFixed()
      reads this
    {
      inUse.Some? && gui.rpcPort.value == InUseRpcPort()
    }

    /** `is_timeout_fixed` as written: the GUI text equals the rendered committed timeout. */
    predicate IsTimeoutFixedAsWritten()
      reads this
    {
      inUse.Some? && TimeoutTextMatchesAsWritten(gui.timeout.value, inUse.value.timeoutSeconds)
    }

    /** The timeout is fixed when the GUI text denotes the committed timeout. */
    predicate IsTimeoutFixed()
      reads this
    {
      inUse.Some? && TimeoutTextMatches(gui.timeout.value, inUse.value.timeoutSeconds)
    }

    predicate IsCookiePathFixed()
      reads this
    {
      inUse.Some? && gui.cookiePath.value == InUseCookiePath()
    }

    /**
     * `is_input_fixed` as written: the four GUI texts equal the in-use
     * getters, with no check that anything was committed.
     */
    predicate IsInputFixedAsWritten()
      reads this
    {
      && gui.url.value == InUseUrl()
      && gui.rpcPort.value == InUseRpcPort()
      && gui.timeout.value == InUseTimeout()
      && gui.cookiePath.value == InUseCookiePath()
    }

    /** `is_input_fixed` as intended: every per-field indicator is on. */
    predicate IsInputFixed()
      reads this
    {
      IsUrlFixed() && IsRpcPortFixed() && IsTimeoutFixed() && IsCookiePathFixed()
    }
  }

  /**
   * Clearing all four fields of a fresh input makes the as-written
   * `is_input_fixed` report the input as fixed although nothing was ever
   * committed and the fields are not even sane.
   */
  method ClearedFieldsLookFixedAsWritten(
    defaultUrl: string, defaultRpcPort: string, defaultTimeoutSeconds: nat, fs: FileSystem)
    returns (input: BitcoincoreClientInput)
    requires defaultTimeoutSeconds <= U64Max
    ensures input.inUse == None && !input.gui.IsSane()
    ensures input.IsInputFixedAsWritten()
    ensures !input.IsInputFixed()
  {
    input := new BitcoincoreClientInput(defaultUrl, defaultRpcPort, defaultTimeoutSeconds, fs);
    TrimOfTrimmed("");
    input.SetUrlFromGuiInput("");
    input.SetRpcPortFromGuiInput("");
    input.SetTimeoutFromGuiInput("");
    input.SetCookiePathFromGuiInput("", fs);
    assert input.gui.url.value == "" && input.gui.timeout.value == "";
  }
}
