# Retriever GUI settings and UTXO script set, in Dafny

This project models the core of the bitceptron retriever GUI, which is the
desktop front end of a tool that looks for funds reachable from a BIP 39
mnemonic. It has two parts.

- **The settings inputs.** Three input objects hold what the user types and
  what is committed:
  - `ExplorerInput`: mnemonic, passphrase, base derivation paths,
    exploration path and depth, network, sweep;
  - `BitcoincoreClientInput`: RPC URL, port, timeout and cookie path;
  - `RetrieverSpecificInput`: which descriptor kinds to cover, and the
    Bitcoin Core data directory.

  Each object keeps a *GUI copy*. Every field of that copy is validated as
  it is typed and carries a sanity bit (`GuiData`). Each object also keeps
  an optional *in-use copy*. `gui_to_in_use` builds the in-use copy from a
  sane GUI copy and fails with `GuiInputIsInsane` otherwise. The
  `is_*_fixed` indicators tell the user whether the GUI copy still agrees
  with what was committed.
- **The unspent-script-pubkey set.** `UnspentScriptPubKeysSet` is filled
  once from a UTXO snapshot dump. It logs progress and a completion estimate
  every 100000 records. A one-slot status goes `Empty -> Populating ->
  Ready`.

Modules:

| file | module | what it holds |
|---|---|---|
| `common.dfy` | `Common` | `Option`, `Result`, the `GuiError`, `Unit` |
| `text.dfy` | `Text` | `str::trim` and `str::split` on one character, with their laws |
| `decimal.dfy` | `Decimal` | `u32`/`u64` `from_str` and `to_string`, and how they relate |
| `gui_input.dfy` | `GuiInput` | `GuiData`: a validated text and its sanity bit |
| `explorer.dfy` | `Explorer` | the explorer validators, the setting copies and the `ExplorerInput` class |
| `bitcoincore_client.dfy` | `BitcoincoreClient` | the URL pattern, cookie-path check, setting copies and `BitcoincoreClientInput` class |
| `retriever_specific.dfy` | `RetrieverSpecific` | the descriptor selection, the data directory and the `RetrieverSpecificInput` class |
| `uspk_set.dfy` | `UspkSet` | the loading loop, its progress reports and the `UnspentScriptPubKeysSet` class |

Some checks cannot be reproduced here, so the model takes their verdicts as
parameters:

- the foreign parsers: `DerivationPath::from_str`, `ExplorationPath::new`
  and `bip39::Mnemonic::from_str`. They are `ForeignParsers`, a record of
  predicates on text.
- the filesystem queries: `exists`, `is_file`, and `canonicalize` followed
  by `is_dir`. They are the predicates of `FileSystem`, and `isDirectory`.
- the UTXO dump: an opened dump is its header count plus the scripts its
  iterator yields. Opening it is a `Result` passed in.
- the clock: `stepMicros(i)` is the time the i-th block of 100000 records
  took.
- the cancellation token: `cancelAt` is the record count at which the loop's
  check first sees it cancelled.

## Model

| member | source | states |
|---|---|---|
| `Text.Trim` | src/inputs/retriever_specific.rs:234 | the trimmed text is the input with its leading and trailing whitespace runs removed, and has no whitespace at either end |
| `Text.TrimOfTrimmed` | src/inputs/bitcoincore_client.rs:45 | trimming text with no whitespace at either end changes nothing |
| `Text.TrimIdempotent` | src/inputs/bitcoincore_client.rs:44-58 | trimming twice is trimming once, so the setters' extra trim before a trimming validator is harmless |
| `Text.Split` | src/inputs/explorer.rs:36-40 | splitting on a separator gives one more piece than there are separators, and no piece contains the separator |
| `Text.Join` | src/inputs/explorer.rs:226 | `join(";")`: the pieces with the separator between each pair; `JoinSplit` and `SplitJoin` prove it is the inverse of `Split` |
| `Text.JoinSplit` | src/inputs/explorer.rs:36-40 | for every text and separator, joining the pieces that `split` yields with that separator gives back the text |
| `Text.SplitJoin` | src/inputs/explorer.rs:36-40 | splitting pieces joined by a separator they do not contain gives back the pieces |
| `Text.SplitWithoutSeparator` | src/inputs/explorer.rs:311-312 | text without the separator splits into itself alone |
| `Text.SplitAfterPiece` | src/inputs/explorer.rs:311-312 | a separator-free piece, then the separator, then more text, splits as that piece followed by the split of the rest |
| `Text.SplitAround` | src/inputs/bitcoincore_client.rs:255-266 | splitting `a`, separator, `b` gives the pieces of `a` followed by those of `b` |
| `Decimal.ToDecimal` | src/inputs/bitcoincore_client.rs:92 | `to_string` of a number is canonical decimal text (no sign, no leading zero) that denotes the number |
| `Decimal.ParseUnsigned` | src/inputs/explorer.rs:365-367 | `parse::<uN>()` yields only values within the type's maximum |
| `Decimal.LeadingZerosValue` | src/inputs/explorer.rs:365-367 | leading zero digits do not change the value parsed |
| `Decimal.NonZeroLeadValue` | src/inputs/explorer.rs:365-367 | a digit run that does not start with 0 denotes at least 1 |
| `Decimal.CanonicalRoundTrip` | src/inputs/bitcoincore_client.rs:92 | rendering the value of canonical text gives back that text |
| `Decimal.ParseAcceptsPadded` | src/inputs/explorer.rs:365-367 | text with an optional `+`, any leading zeros, then a value in range parses to that value |
| `Decimal.SplitLeadingZeros` | src/inputs/explorer.rs:365-367 | every digit run is some leading zeros followed by canonical text |
| `Decimal.ParsedIsPadded` | src/inputs/explorer.rs:365-367 | every text the parser accepts is the padded form of the value it yields: the converse of `ParseAcceptsPadded` |
| `Decimal.PaddedFormUnfold` | src/inputs/explorer.rs:365-367 | the padded form is the optional `+`, then the zeros, then the canonical digits |
| `Decimal.DigitsArePadded` | src/inputs/explorer.rs:365-367 | a digit run is the canonical text of its value after some zeros |
| `Decimal.RenderParsedIffCanonical` | src/inputs/explorer.rs:234-237 | rendering a parsed value gives back the text if and only if that text was canonical |
| `Decimal.PaddedTextIsNotRestored` | src/inputs/explorer.rs:234-237 | "007" and "+7" both parse to 7, and 7 renders as "7" |
| `Explorer.NoPieceFails` | src/inputs/explorer.rs:311-318 | the check passes if and only if the parser accepts every trimmed piece |
| `Explorer.NewBaseDerivationPathsGuiData` | src/inputs/explorer.rs:309-321 | the text is kept as given; it is sane if and only if every `;`-piece, trimmed, is a derivation path |
| `Explorer.NewExplorationPathGuiData` | src/inputs/explorer.rs:339-346 | stored trimmed; sane if and only if the exploration-path parser accepts the stored text |
| `Explorer.DepthIsSane` | src/inputs/explorer.rs:365-367 | the depth check: the text parses as a `u32` and is at least 1; `DepthSaneIffPadded` characterises it |
| `Explorer.NewExplorationDepthGuiData` | src/inputs/explorer.rs:364-372 | stored trimmed; sane if and only if the stored text is an optional `+`, any zeros, then a number from 1 to `u32::MAX` |
| `Explorer.DepthSaneIffPadded` | src/inputs/explorer.rs:365-367 | the depth check (parses as `u32` and is at least 1) holds exactly for the padded forms of 1..`u32::MAX`, in both directions |
| `Explorer.NewMnemonicGuiData` | src/inputs/explorer.rs:405-412 | stored trimmed; sane if and only if the BIP 39 parser accepts the stored text |
| `Explorer.NewPassphraseGuiData` | src/inputs/explorer.rs:430-435 | stored exactly as typed and always sane |
| `Explorer.PassphraseKeepsSpaces` | src/inputs/explorer.rs:430-435 | unlike the other text fields the passphrase keeps surrounding spaces, and the empty passphrase is sane |
| `Explorer.RevalidateStored` | src/inputs/explorer.rs:309-435 | validating the text a validator stored gives back the same field |
| `Explorer.DefaultExplorerSettingFromGui` | src/inputs/explorer.rs:285-300 | the default copy is consistent with its validators: base paths "m", empty mnemonic and passphrase, no presets, no sweep, Bitcoin, and a depth text that is sane if and only if the default depth is at least 1 |
| `Explorer.InUseFromGui` | src/inputs/explorer.rs:33-54 | the committed base paths are the `;`-separated pieces of the typed text and join back to it, each trimmed piece is a derivation path, the depth is in 1..`u32::MAX` and is what the depth text parses to, and every other field is copied |
| `Explorer.ExplorerSettingFromGui.IsSane` | src/inputs/explorer.rs:215-221 | `is_gui_input_sane`: base paths, depth, exploration path, passphrase and mnemonic are all sane; network, sweep and presets are not checked |
| `Explorer.DepthTextMatchesAsWritten` | src/inputs/explorer.rs:236 | the comparison as written: the GUI depth text equals `to_string` of the committed depth |
| `Explorer.DepthTextMatches` | src/inputs/explorer.rs:234-237 | the comparison evidently intended: the GUI depth text parses to the committed depth; `CommittedDepthMatches` relates the two |
| `Explorer.CommittedDepthMatches` | src/inputs/explorer.rs:234-237 | after a commit the depth text always denotes the committed depth; the text comparison as written agrees only if the text was canonical |
| `Explorer.PaddedDepthNeverFixedAsWritten` | src/inputs/explorer.rs:234-237 | "007" is a sane depth that commits as 7, but as written it never compares equal to "7" |
| `Explorer.ExplorerInput.constructor` | src/inputs/explorer.rs:29-31 | the default GUI copy, nothing committed, and the input not fixed |
| `Explorer.ExplorerInput.SetBaseDerivationPathsFromGuiInput` | src/inputs/explorer.rs:71-74 | only the base-paths field changes, to what its validator gives for the text |
| `Explorer.ExplorerInput.SetBaseDerivationPathsFromPresetsFromGuiInput` | src/inputs/explorer.rs:76-81 | only the presets flag changes |
| `Explorer.ExplorerInput.SetExplorationPathFromGuiInput` | src/inputs/explorer.rs:83-85 | only the exploration path changes, to its validated form |
| `Explorer.ExplorerInput.SetSweepFromGuiInput` | src/inputs/explorer.rs:87-89 | only the sweep flag changes |
| `Explorer.ExplorerInput.SetExplorationDepthFromGuiInput` | src/inputs/explorer.rs:91-93 | only the depth field changes, to its validated form |
| `Explorer.ExplorerInput.SetNetworkFromGuiInput` | src/inputs/explorer.rs:95-97 | only the network changes |
| `Explorer.ExplorerInput.SetMnemonicFromGuiInput` | src/inputs/explorer.rs:99-101 | only the mnemonic changes, to its validated form |
| `Explorer.ExplorerInput.SetPassphraseFromGuiInput` | src/inputs/explorer.rs:103-105 | only the passphrase changes, stored as typed |
| `Explorer.ExplorerInput.GuiToInUse` | src/inputs/explorer.rs:33-54 | succeeds if and only if the GUI copy is sane; on failure the committed copy is kept; on success the committed copy is built from the GUI copy, every field is fixed, and as written the input reads fixed only if the depth text was canonical |
| `Explorer.ExplorerInput.CommitFixesInput` | src/inputs/explorer.rs:223-270 | a commit of a sane GUI copy makes every per-field indicator (as corrected) true |
| `Explorer.ExplorerInput.UncommittedReadsAsPlaceholders` | src/inputs/explorer.rs:139-193 | with nothing committed the getters read `[""]`, false, "", false, 0, Bitcoin, "", "", and no indicator is on |
| `Explorer.ExplorerInput.InUseBaseDerivationPaths` | src/inputs/explorer.rs:139-144 | the committed pieces, or `[""]` before any commit |
| `Explorer.ExplorerInput.InUseBaseDerivationPathsFromPresets` | src/inputs/explorer.rs:146-151 | the committed presets flag, or false |
| `Explorer.ExplorerInput.InUseExplorationPath` | src/inputs/explorer.rs:153-158 | the committed exploration path, or "" |
| `Explorer.ExplorerInput.InUseSweep` | src/inputs/explorer.rs:160-165 | the committed sweep flag, or false |
| `Explorer.ExplorerInput.InUseExplorationDepth` | src/inputs/explorer.rs:167-172 | the committed depth, or 0 |
| `Explorer.ExplorerInput.InUseNetwork` | src/inputs/explorer.rs:174-179 | the committed network, or Bitcoin |
| `Explorer.ExplorerInput.InUseMnemonic` | src/inputs/explorer.rs:181-186 | the committed mnemonic, or "" |
| `Explorer.ExplorerInput.InUsePassphrase` | src/inputs/explorer.rs:188-193 | the committed passphrase, or "" |
| `Explorer.ExplorerInput.IsBaseDerivationPathsFixed` | src/inputs/explorer.rs:223-227 | something is committed and the GUI text equals the committed pieces joined with `;` |
| `Explorer.ExplorerInput.IsExplorationPathFixed` | src/inputs/explorer.rs:229-232 | something is committed and the GUI path equals the committed one |
| `Explorer.ExplorerInput.IsExplorationDepthFixedAsWritten` | src/inputs/explorer.rs:234-237 | as written: something is committed and the GUI depth text equals `to_string` of the committed depth |
| `Explorer.ExplorerInput.IsExplorationDepthFixed` | src/inputs/explorer.rs:234-237 | corrected: something is committed and the GUI depth text parses to the committed depth |
| `Explorer.ExplorerInput.IsMnemonicFixed` | src/inputs/explorer.rs:239-241 | something is committed and the GUI mnemonic equals the committed one |
| `Explorer.ExplorerInput.IsPassphraseFixed` | src/inputs/explorer.rs:243-245 | something is committed and the GUI passphrase equals the committed one |
| `Explorer.ExplorerInput.IsSweepFixed` | src/inputs/explorer.rs:247-249 | something is committed and the GUI sweep flag equals the committed one |
| `Explorer.ExplorerInput.IsBaseDerivationPathsFromPresetsFixed` | src/inputs/explorer.rs:251-255 | something is committed and the GUI presets flag equals the committed one |
| `Explorer.ExplorerInput.IsNetworkFixed` | src/inputs/explorer.rs:257-259 | something is committed and the GUI network equals the committed one |
| `Explorer.ExplorerInput.IsInputFixedAsWritten` | src/inputs/explorer.rs:261-270 | `is_input_fixed` as written: all eight indicators, the depth compared as text |
| `Explorer.ExplorerInput.IsInputFixed` | src/inputs/explorer.rs:261-270 | `is_input_fixed` corrected: all eight indicators, the depth compared by value |
| `Explorer.ExplorerInput.ToExplorerSetting` | src/inputs/explorer.rs:56-69 | defined only when `is_input_fixed` as written holds, as the source panics otherwise; the setting then has as base paths the `;`-separated pieces of the typed text, each a derivation path once trimmed and joining back to that text, a depth in 1..`u32::MAX` whose `to_string` is the typed depth text, and the typed other fields |
| `Explorer.ExplorerInput.AsWrittenGuardIsStricter` | src/inputs/explorer.rs:57-58 | the guard as written implies the corrected `IsInputFixed`; once that holds, the guard adds exactly that the depth text is canonical, so a committed "007" is refused |
| `BitcoincoreClient.UrlPatternShape` | src/inputs/bitcoincore_client.rs:186-193 | text matching `^\d+.\d+.\d+.\d+$` is at least 7 characters, starts and ends with a digit, and has no line feed or surrounding whitespace |
| `BitcoincoreClient.DottedQuadMatches` | src/inputs/bitcoincore_client.rs:186-193 | every dotted quad of digit runs matches the pattern |
| `BitcoincoreClient.UrlPatternIsLoose` | src/inputs/bitcoincore_client.rs:186-193 | the unescaped `.` lets "1a2b3c4" and "1234567" match, while "localhost" and a dotted quad ending in a line feed do not |
| `BitcoincoreClient.MatchesUrlPattern` | src/inputs/bitcoincore_client.rs:187-188 | the whole text is four runs of ASCII digits separated by single characters other than a line feed; `UrlPatternShape`, `DottedQuadMatches` and `UrlPatternIsLoose` characterise it |
| `BitcoincoreClient.NamedComponents` | src/inputs/bitcoincore_client.rs:255-266 | the components are exactly the pieces that are neither empty nor `.` |
| `BitcoincoreClient.PathComponents` | src/inputs/bitcoincore_client.rs:259-261 | the components of a Unix path: its `/`-pieces other than empty ones and `.` |
| `BitcoincoreClient.EndsWithCookie` | src/inputs/bitcoincore_client.rs:259-261 | `ends_with(".cookie")`: the last component is exactly `.cookie`; `CookieFileNameIsExact` characterises it |
| `BitcoincoreClient.NamedComponentsAppend` | src/inputs/bitcoincore_client.rs:255-266 | the components of two runs of pieces are those of each, in order |
| `BitcoincoreClient.ComponentsOfJoinedPath` | src/inputs/bitcoincore_client.rs:255-266 | the components of `d/name` are those of `d` followed by those of `name` |
| `BitcoincoreClient.CookieFileNameIsExact` | src/inputs/bitcoincore_client.rs:255-266 | `d/name` ends with `.cookie` if and only if `name` is exactly `.cookie` |
| `BitcoincoreClient.CookieFileInDirectory` | src/inputs/bitcoincore_client.rs:255-266 | `d/.cookie` qualifies and `d/bitcoin.cookie` does not |
| `BitcoincoreClient.NewUrlGuiData` | src/inputs/bitcoincore_client.rs:186-193 | stored trimmed; sane if and only if the text matches the pattern, and sane text is stored unchanged |
| `BitcoincoreClient.NewRpcPortGuiData` | src/inputs/bitcoincore_client.rs:211-215 | stored as given; sane if and only if it is one or more ASCII digits |
| `BitcoincoreClient.PortHasNoRangeCheck` | src/inputs/bitcoincore_client.rs:211-215 | the port check has no range: "0", "99999" and "08332" are sane, while "" and "+8332" are not |
| `BitcoincoreClient.TimeoutIsSane` | src/inputs/bitcoincore_client.rs:234-235 | the timeout check: one or more ASCII digits that parse as a `u64`; `TimeoutSaneIffPadded` characterises it |
| `BitcoincoreClient.NewTimeoutGuiData` | src/inputs/bitcoincore_client.rs:233-237 | stored as given; sane if and only if it is any zeros followed by the canonical text of a `u64` |
| `BitcoincoreClient.TimeoutSaneIffPadded` | src/inputs/bitcoincore_client.rs:233-237 | the digits-and-`u64` check holds exactly for zero-padded `u64` texts, in both directions |
| `BitcoincoreClient.PaddedTimeoutIsSane` | src/inputs/bitcoincore_client.rs:233-237 | every zero-padded `u64` text passes the check |
| `BitcoincoreClient.SaneTimeoutIsPadded` | src/inputs/bitcoincore_client.rs:233-237 | every text that passes is the zero-padded form of its value |
| `BitcoincoreClient.NewCookiePathGuiData` | src/inputs/bitcoincore_client.rs:255-266 | stored as given; sane if and only if the path exists, is a file and its last component is `.cookie` |
| `BitcoincoreClient.DefaultBitcoincoreClientSettingFromGui` | src/inputs/bitcoincore_client.rs:160-177 | the default copy is consistent, its timeout is sane canonical text, its cookie path is "" and not sane, so the default copy cannot be committed |
| `BitcoincoreClient.InUseFromGui` | src/inputs/bitcoincore_client.rs:30-42 | URL, port and cookie path are copied and keep their validated shapes; the timeout is the `u64` its text parses to |
| `BitcoincoreClient.BitcoincoreClientSettingFromGui.IsSane` | src/inputs/bitcoincore_client.rs:104-109 | `is_gui_input_sane`: all four fields are sane |
| `BitcoincoreClient.TimeoutTextMatchesAsWritten` | src/inputs/bitcoincore_client.rs:136 | the comparison as written: the GUI timeout text equals `to_string` of the committed seconds |
| `BitcoincoreClient.TimeoutTextMatches` | src/inputs/bitcoincore_client.rs:135-137 | the comparison evidently intended: the GUI timeout text parses to the committed seconds; `CommittedTimeoutMatches` relates the two |
| `BitcoincoreClient.CommittedTimeoutMatches` | src/inputs/bitcoincore_client.rs:135-137 | after a commit the timeout text always denotes the committed timeout; the text comparison as written agrees only if the text was canonical |
| `BitcoincoreClient.PaddedTimeoutNeverFixedAsWritten` | src/inputs/bitcoincore_client.rs:135-137 | "030" is a sane timeout that commits as 30, but as written it never compares equal to "30" |
| `BitcoincoreClient.BitcoincoreClientInput.constructor` | src/inputs/bitcoincore_client.rs:22-28 | the default GUI copy and nothing committed |
| `BitcoincoreClient.BitcoincoreClientInput.SetUrlFromGuiInput` | src/inputs/bitcoincore_client.rs:44-46 | only the URL changes, to what its validator gives for the trimmed text |
| `BitcoincoreClient.BitcoincoreClientInput.SetRpcPortFromGuiInput` | src/inputs/bitcoincore_client.rs:48-50 | only the port changes, to its validated trimmed form |
| `BitcoincoreClient.BitcoincoreClientInput.SetTimeoutFromGuiInput` | src/inputs/bitcoincore_client.rs:52-54 | only the timeout changes, to its validated trimmed form |
| `BitcoincoreClient.BitcoincoreClientInput.SetCookiePathFromGuiInput` | src/inputs/bitcoincore_client.rs:56-58 | only the cookie path changes, to its validated trimmed form |
| `BitcoincoreClient.BitcoincoreClientInput.GuiToInUse` | src/inputs/bitcoincore_client.rs:30-42 | succeeds if and only if all four fields are sane; on failure the committed copy is kept; on success it is built from the GUI copy and every field is fixed, and as written the input reads fixed only if the timeout text was canonical |
| `BitcoincoreClient.BitcoincoreClientInput.CommitFixesInput` | src/inputs/bitcoincore_client.rs:127-148 | a commit of a sane GUI copy makes every per-field indicator (as corrected) true |
| `BitcoincoreClient.BitcoincoreClientInput.UncommittedReadsAsEmpty` | src/inputs/bitcoincore_client.rs:76-148 | with nothing committed every getter reads "", no per-field indicator is on, the corrected `is_input_fixed` is false, and the as-written one holds exactly when all four GUI texts are "" |
| `BitcoincoreClient.BitcoincoreClientInput.InUseUrl` | src/inputs/bitcoincore_client.rs:76-81 | the committed URL, or "" before any commit |
| `BitcoincoreClient.BitcoincoreClientInput.InUseRpcPort` | src/inputs/bitcoincore_client.rs:83-88 | the committed port, or "" |
| `BitcoincoreClient.BitcoincoreClientInput.InUseTimeout` | src/inputs/bitcoincore_client.rs:90-95 | `to_string` of the committed seconds, or "" |
| `BitcoincoreClient.BitcoincoreClientInput.InUseCookiePath` | src/inputs/bitcoincore_client.rs:97-102 | the committed cookie path, or "" |
| `BitcoincoreClient.BitcoincoreClientInput.IsUrlFixed` | src/inputs/bitcoincore_client.rs:127-129 | something is committed and the GUI URL equals the committed one |
| `BitcoincoreClient.BitcoincoreClientInput.IsRpcPortFixed` | src/inputs/bitcoincore_client.rs:131-133 | something is committed and the GUI port equals the committed one |
| `BitcoincoreClient.BitcoincoreClientInput.IsTimeoutFixedAsWritten` | src/inputs/bitcoincore_client.rs:135-137 | as written: something is committed and the GUI timeout text equals `to_string` of the committed seconds |
| `BitcoincoreClient.BitcoincoreClientInput.IsTimeoutFixed` | src/inputs/bitcoincore_client.rs:135-137 | corrected: something is committed and the GUI timeout text parses to the committed seconds |
| `BitcoincoreClient.BitcoincoreClientInput.IsCookiePathFixed` | src/inputs/bitcoincore_client.rs:139-141 | something is committed and the GUI cookie path equals the committed one |
| `BitcoincoreClient.BitcoincoreClientInput.IsInputFixedAsWritten` | src/inputs/bitcoincore_client.rs:143-148 | `is_input_fixed` as written: the four GUI texts equal the four getters, with no check that anything is committed |
| `BitcoincoreClient.BitcoincoreClientInput.IsInputFixed` | src/inputs/bitcoincore_client.rs:143-148 | `is_input_fixed` corrected: all four per-field indicators, each of which needs a commit |
| `BitcoincoreClient.ClearedFieldsLookFixedAsWritten` | src/inputs/bitcoincore_client.rs:143-148 | clearing every field of a fresh input leaves nothing committed and the copy not sane, yet the as-written `is_input_fixed` holds |
| `RetrieverSpecific.NewDataDirGuiData` | src/inputs/retriever_specific.rs:233-240 | stored trimmed; sane if and only if the stored text names a directory |
| `RetrieverSpecific.RetrieverSpecificSettingFromGui.Selects` | src/inputs/retriever_specific.rs:86-108 | the `get_gui_p2*` readers: whether the box of a kind is ticked |
| `RetrieverSpecific.RetrieverSpecificSettingFromGui.SelectsAny` | src/inputs/retriever_specific.rs:169-175 | `is_gui_selected_descriptors_sane`: some box is ticked |
| `RetrieverSpecific.RetrieverSpecificSettingFromGui.IsSane` | src/inputs/retriever_specific.rs:181-183 | `is_gui_input_sane`: the data directory is sane and some box is ticked |
| `RetrieverSpecific.DescribesSelection` | src/inputs/retriever_specific.rs:32-53 | what the pushes produce: a list in declaration order holding exactly the ticked kinds |
| `RetrieverSpecific.PushIf` | src/inputs/retriever_specific.rs:32-53 | one conditional push keeps the list strictly in declaration order and holding exactly the ticked kinds seen so far |
| `RetrieverSpecific.DescribesAllRanks` | src/inputs/retriever_specific.rs:32-53 | after the five pushes the list holds exactly the ticked kinds |
| `RetrieverSpecific.HeadAndTail` | src/inputs/retriever_specific.rs:32-53 | in an ordered list the head comes before every member, and the tail holds the other members |
| `RetrieverSpecific.OrderedSameMembersEqual` | src/inputs/retriever_specific.rs:32-53 | two strictly ordered lists with the same members are equal |
| `RetrieverSpecific.PushedDescriptors` | src/inputs/retriever_specific.rs:32-53 | the pushed list holds exactly the ticked kinds, in declaration order, one entry per ticked box |
| `RetrieverSpecific.SelectionIsDetermined` | src/inputs/retriever_specific.rs:32-53 | any ordered list of exactly the ticked kinds is the pushed list; it is non-empty if and only if some box is ticked |
| `RetrieverSpecific.DefaultRetrieverSpecificSettingFromGui` | src/inputs/retriever_specific.rs:213-224 | every kind is ticked and the data directory is the validated "" |
| `RetrieverSpecific.DefaultSelectsAllInOrder` | src/inputs/retriever_specific.rs:213-224 | committing the defaults selects P2pk, P2pkh, P2wpkh, P2shwpkh, P2tr, in that order |
| `RetrieverSpecific.DefaultIsNotSane` | src/inputs/retriever_specific.rs:213-240 | when "" names no directory, as `canonicalize` fails on it, the default data directory is not sane and the default settings are not sane |
| `RetrieverSpecific.FreshInputCannotCommit` | src/inputs/retriever_specific.rs:25-60 | committing a fresh input fails with `GuiInputIsInsane` when "" names no directory |
| `RetrieverSpecific.CollectSelectedDescriptors` | src/inputs/retriever_specific.rs:32-53 | the list built by the pushes is ordered, holds exactly the ticked kinds and has one entry per ticked box |
| `RetrieverSpecific.RetrieverSpecificInput.constructor` | src/inputs/retriever_specific.rs:15-27 | the default GUI copy and nothing committed |
| `RetrieverSpecific.RetrieverSpecificInput.SetInclusionFromGuiInput` | src/inputs/retriever_specific.rs:62-80 | only the box of the given kind changes, and a box that disagrees with the commit makes the descriptors not fixed |
| `RetrieverSpecific.RetrieverSpecificInput.SetDataDirFromGuiInput` | src/inputs/retriever_specific.rs:82-84 | only the data directory changes, to its validated form |
| `RetrieverSpecific.RetrieverSpecificInput.GuiToInUse` | src/inputs/retriever_specific.rs:29-60 | succeeds if and only if the directory is sane and some box is ticked; on failure the committed copy is kept; on success the committed list describes the ticked boxes, the directory is copied, and the input is fixed |
| `RetrieverSpecific.RetrieverSpecificInput.CommitFixesInput` | src/inputs/retriever_specific.rs:185-200 | a commit that describes the GUI copy makes the directory and every box fixed |
| `RetrieverSpecific.RetrieverSpecificInput.UncommittedReadsAsEmpty` | src/inputs/retriever_specific.rs:110-200 | with nothing committed every membership getter is false, the list is empty, the directory is "", and nothing is fixed |
| `RetrieverSpecific.RetrieverSpecificInput.InUseIncludes` | src/inputs/retriever_specific.rs:110-153 | the `get_in_use_p2*` getters: the kind is in the committed list; false before any commit |
| `RetrieverSpecific.RetrieverSpecificInput.InUseSelectedDescriptors` | src/inputs/retriever_specific.rs:155-160 | the committed list, or the empty list |
| `RetrieverSpecific.RetrieverSpecificInput.InUseDataDir` | src/inputs/retriever_specific.rs:162-167 | the committed data directory, or "" |
| `RetrieverSpecific.RetrieverSpecificInput.IsDataDirFixed` | src/inputs/retriever_specific.rs:185-187 | something is committed and the GUI directory equals the committed one |
| `RetrieverSpecific.RetrieverSpecificInput.IsSelectedDescriptorsFixed` | src/inputs/retriever_specific.rs:189-196 | something is committed and each box agrees with membership in the committed list |
| `RetrieverSpecific.RetrieverSpecificInput.IsInputFixed` | src/inputs/retriever_specific.rs:198-200 | both the directory and the selection are fixed |
| `UspkSet.SetOf` | src/uspk_set.rs:52-56 | the set the loop builds from the scripts inserted, one insert per record; `SetOfMembers` characterises it |
| `UspkSet.SetOfMembers` | src/uspk_set.rs:56 | the set built holds exactly the scripts inserted, nothing missing and nothing extra |
| `UspkSet.SetOfNextPrefix` | src/uspk_set.rs:56 | inserting the next record adds exactly its script |
| `UspkSet.DistinctScriptsCardinality` | src/uspk_set.rs:56 | when the scripts are pairwise distinct the set has one element per record |
| `UspkSet.CumulativeMean` | src/uspk_set.rs:62-64 | the running average after each step, defined by the update the source performs; `MeanWithinSamples` proves it lies between the fastest and slowest step |
| `UspkSet.NextAverage` | src/uspk_set.rs:62-64 | one update: the new sample plus `(k - 1)` times the old average, divided by `k`; `AverageAfterStep` proves it gives the mean so far |
| `UspkSet.MeanWithinSamples` | src/uspk_set.rs:62-64 | the running average lies between the fastest and the slowest step, and after one step it is that step's time |
| `UspkSet.EtaMinutes` | src/uspk_set.rs:65-66 | the estimate is at least one minute, and exactly one when less than a minute's work remains |
| `UspkSet.ReportAfterStep` | src/uspk_set.rs:65-76 | the report after step k: k times 100000 records done, the header total, the average and the estimate for the steps left |
| `UspkSet.ReportsAfterSteps` | src/uspk_set.rs:59-76 | one report per completed step |
| `UspkSet.ReportsListEveryStep` | src/uspk_set.rs:59-76 | the i-th report is the one for step i + 1: records done, header total, average and estimate after that step |
| `UspkSet.StepCountAfterRecord` | src/uspk_set.rs:58-61 | a new step completes exactly when the record count reaches a multiple of 100000 |
| `UspkSet.AverageAfterStep` | src/uspk_set.rs:62-64 | the running-average update yields the mean of all step times so far |
| `UspkSet.ReportsGrowByOne` | src/uspk_set.rs:59-76 | the report logged at step k extends the list of reports of the first k - 1 steps |
| `UspkSet.RecordsInserted` | src/uspk_set.rs:53-86 | the loop never inserts more records than the dump yields |
| `UspkSet.StepsReported` | src/uspk_set.rs:59-61 | no more steps are reported than the header announces |
| `UspkSet.ExpectedExit` | src/uspk_set.rs:53-86 | how the loop ends: underflow once one step more than the header counts completes, otherwise cancellation if it is seen, otherwise exhaustion; `StopOnCancel`, `StopOnExhaustion` and `StopOnUnderflow` justify each case |
| `UspkSet.HonestHeaderNeverUnderflows` | src/uspk_set.rs:47-61 | when the dump yields no more records than its header counts, `steps_remaining` never goes below zero, and the loop runs to exhaustion if and only if no cancellation is seen |
| `UspkSet.StopOnCancel` | src/uspk_set.rs:53 | a cancellation seen after `n` records stops the loop with exactly `n` inserted |
| `UspkSet.StopOnExhaustion` | src/uspk_set.rs:80-84 | running out of records without a cancellation ends the loop normally with every record inserted |
| `UspkSet.StopOnUnderflow` | src/uspk_set.rs:61 | completing one step more than the header counts makes `steps_remaining -= 1` overflow |
| `UspkSet.PopulateLoop` | src/uspk_set.rs:50-87 | the loop ends as `ExpectedExit` says; the set built is exactly the scripts of the records inserted, all of them when the dump is exhausted; the reports are those of the steps completed |
| `UspkSet.UnspentScriptPubKeysSet.constructor` | src/uspk_set.rs:25-31 | an empty set with status `Empty` |
| `UspkSet.UnspentScriptPubKeysSet.PopulateWithDumpFile` | src/uspk_set.rs:32-95 | a dump that fails to open is returned as the error and nothing changes; otherwise the status becomes `Populating`; it returns `Ok` if and only if the dump is exhausted, and then the set is replaced by exactly the dump's scripts and the status is `Ready`; a cancelled or overflowing loop panics with the old set and the status `Populating` |
| `UspkSet.UnspentScriptPubKeysSet.GetImmutableInnerSet` | src/uspk_set.rs:97-99 | the current set, shared read-only |
| `UspkSet.UnspentScriptPubKeysSet.GetStatus` | src/uspk_set.rs:101-103 | the value in the status slot |
| `UspkSet.UnspentScriptPubKeysSet.IsEmpty` | src/uspk_set.rs:105-107 | true if and only if no script is in the set |

The lemmas `UspkSet.MulIsNat`, `UspkSet.MulMonotone`, `UspkSet.MulCancelStrict`,
`UspkSet.MulSucc`, `UspkSet.DivisionBetweenBounds`, `UspkSet.ScaleBetweenBounds` and
`RetrieverSpecific.EmptyIffNoMembers` are general facts about arithmetic and
sequences. They are proof helpers and model no line of the source.

## Left out

- Concurrency is left out. The loading loop runs on a blocking task and hands the set over through a one-shot channel. The status slot sits behind `Arc<Mutex<..>>`, and the set is shared through an `Arc`. The model runs these steps in sequence, and the cancellation token is a record count.
- Timing and logging are left out. `Instant` readings are the `stepMicros` parameter. `info!` lines are the `ProgressReport` values, without the thousands-separator formatting.
- The final "populated in ~N mins" line is left out. It is logged before the set is received, so it does not mark completion.
- Decoding the `txoutset` dump is left out. A dump is its header count and the scripts it yields.
- `UspkSet.PopulateLoop`: the underflow of `steps_remaining` is modelled as stopping the loop, as a debug build panics there. A release build wraps around instead and goes on loading with a meaningless estimate. That path is not modelled.
- `UspkSet.UnspentScriptPubKeysSet.PopulateWithDumpFile`: a cancelled load ends the loop without sending the set, and the sender is dropped with the task. The `unwrap` at src/uspk_set.rs:93 then panics, so the old set stays and the status stays `Populating`. The model returns `Panicked` in that state. What happens to the caller after the panic is not modelled.
- The width of the step time (`u128`) is unbounded here. Overflow of `u128` microsecond sums is out of reach for any real dump.
- The foreign parsers for derivation paths, exploration paths and BIP 39 mnemonics are predicates given to the model, not definitions. So are the filesystem queries, `canonicalize` included. A sanity bit stored from the filesystem can go stale, because the filesystem may change after a field was set. `Consistent` therefore does not restate the filesystem part.
- `\d` in the URL, port and timeout patterns is taken to be an ASCII digit. The regex crate's Unicode `\d` also accepts other decimal digits, and `parse::<u64>` then rejects them. The timeout check therefore agrees with the model, but the URL and port checks would accept more.
- `BitcoincoreClient.PathComponents`: only the Unix form of paths is modelled: `/` separators, with empty and `.` pieces dropped. Windows prefixes and separators are not modelled. Neither is the leading `.` that `Path::components` keeps as a component; it never equals `.cookie`, so only a bare `.` path is affected.
- `Explorer.Network`: `bitcoin::Network` is limited to the four networks the GUI offers.
- `Explorer.ExplorerInput.ToExplorerSetting`: building the foreign `ExplorerSetting` is modelled as a record of the committed values. The foreign constructor's own parsing of those values is not modelled.
- The plain getters of the GUI copy (`get_gui_*`, except the descriptor boxes) and the per-field `is_gui_*_sane` readers are field reads of the GUI copy. They have no members of their own.
- `RetrieverSpecific.RetrieverSpecificInput.SetInclusionFromGuiInput` stands for the five `set_p2*_inclusion_from_gui_input` setters. It takes the descriptor kind as a parameter.
- All setters require `Valid()`: every stored field is what its validator computes. The constructor establishes this and every setter keeps it. The source has no such precondition, but no call sequence can break it.
- The view code, the application messages, `lib.rs`, `main.rs` and `run_functions.rs` are not part of this model. They hold the `iced` widgets, the message loop and the retriever calls. This includes the predicate there that combines the three `is_input_fixed` results.
- The default URL, port, timeout, exploration path and depth come from the retriever crate, which is not part of this model. They are parameters of the constructors.

## Findings

| source | as written | input that shows it | evidently intended | confidence | as-written member | corrected member |
|---|---|---|---|---|---|---|
| src/inputs/explorer.rs:234-237 | the depth is fixed when the GUI text equals `to_string` of the committed depth | depth text "007" (or "+7"): sane, commits as 7, renders as "7", so the indicator stays off after a commit | the indicator is on after committing any sane depth text | not executed | `Explorer.PaddedDepthNeverFixedAsWritten` | `Explorer.ExplorerInput.CommitFixesInput` |
| src/inputs/bitcoincore_client.rs:135-137 | the timeout is fixed when the GUI text equals `to_string` of the committed seconds | timeout text "030": sane, commits as 30, renders as "30", so the indicator stays off after a commit | the indicator is on after committing any sane timeout text | not executed | `BitcoincoreClient.PaddedTimeoutNeverFixedAsWritten` | `BitcoincoreClient.BitcoincoreClientInput.CommitFixesInput` |
| src/inputs/bitcoincore_client.rs:143-148 | `is_input_fixed` compares the four texts with the in-use getters, which read "" when nothing is committed, and does not check that a commit exists | a fresh input whose four fields are all set to "" and never committed | as in the per-field indicators: fixed only once something is committed | not executed | `BitcoincoreClient.ClearedFieldsLookFixedAsWritten` | `BitcoincoreClient.BitcoincoreClientInput.UncommittedReadsAsEmpty` |
