# Zelgodiz Studio front end, modelled in Dafny

This project models the logic of the Zelgodiz Studio editor front end.
The front end is a VS Code-style shell with a local, open-source-only coding
assistant called Riley. Each core source file becomes one module:

- `Compliance` (`src/riley-core-agent.ts`) is Riley's FOSS/local-only guard.
  It holds a deny-list of 24 terms. At start-up it checks
  every dependency name of `package.json` against the list. At run time it
  checks API names against it. A check fails on the first name whose
  lower-cased form includes a listed term.
- `CommandPalette` (`src/CommandPalette.jsx`) has the fixed command table and
  the case-insensitive filter over it. It also has the keyboard state
  machine: the highlighted index, Enter to dispatch, Escape to close.
- `Brain` (`src/AgentBrain.js`) routes a chat command through a fixed,
  ordered chain of phrase tests.
- `FileStore` (`src/fileHandler.js`) keeps files in `localStorage` under the
  key `file:<name>`. `localStorage` is a `map<string, string>` field that
  the operations update in place.
- `Layout` (`src/VSCodeLayout.jsx`) holds the shell's `files`, `activeTab`
  and `code` state over that store. It also has the shell's suffix-based
  editor language.
- `EditorArea` (`src/components/EditorArea.tsx`) maps a file name to an
  editor language.
- `Sidebar` (`src/components/Sidebar.tsx`) holds the set of expanded
  folders and the rows the explorer tree shows.
- `RileyPanel` (`src/RileyPanel.jsx`) is the chat panel. Sending appends the
  user's message and then a reply; a keyword test decides where the reply
  comes from. Replies that open with a Markdown code fence are shown as code.

Two support modules model JavaScript built-ins: `Wrappers` (`Option`, and
`Outcome` for "returned normally" versus "threw") and `Text`. `Text` covers
`toLowerCase`, `includes`, `startsWith`, `endsWith`, `join` and `trim`.

Inputs from outside become parameters:
- the parsed `package.json` (`Compliance.PackageFile`);
- the global file lister that `handleCommand` consults;
- the answers to the browser's `prompt` and `confirm` dialogs;
- the local model's `generateCode`, a function `(string, nat) -> Option<string>`
  that is `None` when the call rejects.

Where a source function changes state step by step, the model does too. The
deny-list loops, `listFiles`, the palette, the shell and the chat panel are
methods and classes. Each one is proved against a specification function,
and the lemmas beside that function state what the source promises.

## Model

| member | source | states |
|---|---|---|
| Compliance.AllDeps | src/riley-core-agent.ts:26 | The scanned names are the `dependencies` keys followed by the `devDependencies` keys. A missing object contributes no names. |
| Compliance.FirstOffender | src/riley-core-agent.ts:27-33 | The result is the first dependency that hits a term, with the first term it hits. Every earlier dependency hits nothing. The result is `None` exactly when no dependency hits any term. |
| Compliance.OffenderIsFirst | src/riley-core-agent.ts:27-33 | For any names and terms, the offender found hits its term, every earlier name hits no term, and no earlier term is hit by the offender. |
| Compliance.FindHit | src/riley-core-agent.ts:55-59 | The inner loop returns the index of the first term, in list order, that the lower-cased name includes, or `None`. |
| Compliance.FindOffender | src/riley-core-agent.ts:27-33 | The nested loops find exactly the first offender, with its first matching term. |
| Compliance.RefuseForbiddenApi | src/riley-core-agent.ts:51-60 | Fails with `ForbiddenApi(apiName)` when the lower-cased name includes a deny-list term; otherwise returns normally. The thrown message is `❌ Forbidden API usage: ` followed by the name. |
| Compliance.EnforceCompliance | src/riley-core-agent.ts:18-35 | The outcome is the scan's. A missing file passes. An unreadable file fails. Otherwise the first offender, if there is one, is reported as the failure. The agent's own message is thrown exactly when the file was present; an unreadable file fails with the runtime's error. |
| Compliance.Message | src/riley-core-agent.ts:30-57 | The API message opens with `❌ Forbidden API usage: ` and the rest of it is the API name. The dependency message opens with `❌ Forbidden dependency detected: ` and includes the dependency name and the quoted term. An unreadable package has no message of the agent's own. |
| Compliance.MessagesDistinguishKinds | src/riley-core-agent.ts:30-57 | An API refusal and a dependency refusal never produce the same message: each opens with words the other does not. |
| Compliance.ApiRefusedIff | src/riley-core-agent.ts:51-60 | An API name is refused iff its lower-cased form includes some deny-list term. The error carries the name. |
| Compliance.KelvinSignRefused | src/riley-core-agent.ts:56 | `toLowerCase` folds the Kelvin sign to `k`, so `TO\u212AEN` lower-cases to `token` and is refused. |
| Compliance.CopilotRefused | test/riley-core-agent.test.ts:18 | `copilot`, `CoPilot` and `COPILOT` are all refused. |
| Compliance.ScanFailsIff | src/riley-core-agent.ts:26-33 | A present `package.json` fails the scan iff some dependency or devDependency name hits some term. |
| Compliance.OffenderIffSomeHit | src/riley-core-agent.ts:27-33 | There is a first offender iff some name hits some term, for any names and terms. |
| Compliance.ScanReportsFirst | src/riley-core-agent.ts:26-30 | The reported dependency is the first offender in dependencies-then-devDependencies order. The reported term is the first term it hits in deny-list order. |
| Compliance.MissingPackagePasses | src/riley-core-agent.ts:21 | Without a `package.json` the scan passes. |
| Compliance.MissingMapsAreEmpty | src/riley-core-agent.ts:26 | A missing `dependencies` or `devDependencies` object scans like an empty one. |
| Compliance.DependencyScanAgreesWithApiCheck | src/riley-core-agent.ts:23-54 | The start-up and run-time lists are the same. A package whose only dependency is `name` fails iff the API name `name` is refused. |
| Compliance.IsFossCompliant | src/riley-core-agent.ts:37-40 | The result is always `true`. |
| Compliance.RileyCoreAgent.constructor | src/riley-core-agent.ts:13-14 | `config` is the compliance lock. |
| Compliance.RileyCoreAgent.Create | src/riley-core-agent.ts:13-16 | Construction yields an agent, holding the lock, exactly when the dependency scan passes; otherwise it yields the scan's failure. |
| Compliance.RileyCoreAgent.GetPrompt | src/riley-core-agent.ts:42-44 | The result is the lock's compliance prompt. |
| Compliance.RileyCoreAgent.GetInitPrompt | src/riley-core-agent.ts:46-48 | The result is the lock's initiation prompt. |
| CommandPalette.FilterCommands | src/CommandPalette.jsx:26-28 | A command is kept iff its lower-cased label includes the lower-cased query. The kept commands stay in table order. |
| CommandPalette.Filter | src/CommandPalette.jsx:24-29 | The list shown for a query holds exactly the table's matching commands, in table order, and has at most 8 entries. |
| CommandPalette.FilterKeepsAllMatching | src/CommandPalette.jsx:26-28 | When every command matches, the filter returns the whole list unchanged. |
| CommandPalette.EmptyQueryKeepsAll | src/CommandPalette.jsx:15-16 | The empty query keeps all 8 commands in order, so the initial state is consistent. |
| CommandPalette.DefaultActionsDistinct | src/CommandPalette.jsx:3-12 | The table's actions are pairwise distinct. |
| CommandPalette.FilteredActionsDistinct | src/CommandPalette.jsx:62-64 | Every filtered list has pairwise distinct actions, so they are valid React keys. |
| CommandPalette.NextSelected | src/CommandPalette.jsx:34-37 | ArrowDown gives min(s+1, n-1). ArrowUp gives max(s-1, 0). Other keys keep the index. A valid index stays valid. |
| CommandPalette.EnterAction | src/CommandPalette.jsx:38-42 | Enter dispatches exactly when the highlighted entry exists, and it dispatches that entry's action. |
| CommandPalette.EnterDispatchesWhenListed | src/CommandPalette.jsx:38-42 | With a non-empty list and a valid index, Enter always dispatches the highlighted action. |
| CommandPalette.ArrowDownOnEmptyThenEnter | src/CommandPalette.jsx:35-42 | ArrowDown on an empty list sets the index to -1. Enter then dispatches nothing. |
| CommandPalette.Palette.constructor | src/CommandPalette.jsx:15-17 | The palette starts with an empty query, all commands listed and the first one highlighted. |
| CommandPalette.Palette.SetQuery | src/CommandPalette.jsx:24-31 | A changed query re-filters the list and resets the index to 0. An unchanged query leaves both alone. |
| CommandPalette.Palette.KeyDown | src/CommandPalette.jsx:33-46 | The index moves as `NextSelected` says. Enter returns the highlighted action and closes, if that entry exists. Escape closes without a command. Other keys do nothing. |
| CommandPalette.Palette.Hover | src/CommandPalette.jsx:73 | Hovering highlights the entry under the pointer. |
| CommandPalette.Palette.Click | src/CommandPalette.jsx:74-77 | A click dispatches the clicked entry's action, which is one of the table's actions, and always closes the palette. |
| Brain.ListFilesResult | src/AgentBrain.js:19 | The result is the listed names joined by newlines. It is `No files found.` when that is empty or there is no lister. It is never empty. |
| Brain.Respond | src/AgentBrain.js:11-70 | Every path returns a non-empty reasoning and a non-empty result. |
| Brain.RespondIsFirstMatch | src/AgentBrain.js:17-64 | The reply is that of the first phrase, in chain order, that the lower-cased command includes. A command including none gets the fallback. |
| Brain.FirstMatchAnswers | src/AgentBrain.js:17-64 | When phrase `i` is the first the lower-cased command includes, the reply is branch `i`'s. |
| Brain.NoMatchFallsBack | src/AgentBrain.js:65-69 | A command including no phrase gets the fallback reply. |
| Brain.RespondCaseInsensitive | src/AgentBrain.js:12 | Commands that lower-case alike get the same reasoning. They get the same whole reply, except in the fallback, which quotes each command as typed. |
| Brain.ListFilesWinsOverBuild | src/AgentBrain.js:17-53 | A command containing both `list files` and `build` is answered by the `list files` branch. |
| Brain.AgentBrain.constructor | src/AgentBrain.js:7-9 | `history` starts empty. |
| Brain.AgentBrain.HandleCommand | src/AgentBrain.js:11-70 | The reply is `Respond(command, lister)`. `history` is unchanged. |
| FileStore.Key | src/fileHandler.js:4 | The key is the `file:` prefix followed by the name, and the name can be read back from it. |
| FileStore.KeyInjective | src/fileHandler.js:4 | Different names have different keys. |
| FileStore.ListedIffStored | src/fileHandler.js:9-12 | A name is listed iff its prefixed key is stored. |
| FileStore.LoadAfterSave | src/fileHandler.js:3-8 | After saving `c` under `n`, loading `n` gives `c`, which is `''` when `c` is empty. Other names load as before. |
| FileStore.SaveOverwrites | src/fileHandler.js:4 | Of two saves under one name, the last one wins. |
| FileStore.LoadAfterDelete | src/fileHandler.js:14-15 | After deleting `n`, loading `n` gives `''`. Other names load as before. |
| FileStore.LoadMissing | src/fileHandler.js:7 | A name that is not stored loads as `''`. |
| FileStore.NamesAfterSave | src/fileHandler.js:4 | Saving adds exactly the saved name to the listing. |
| FileStore.NamesAfterDelete | src/fileHandler.js:15 | Deleting removes exactly the deleted name from the listing. |
| FileStore.UnprefixedKeysIgnored | src/fileHandler.js:11 | Keys without the prefix never affect the listing. |
| FileStore.FileHandler.constructor | src/fileHandler.js:2 | The handler starts over the given storage. |
| FileStore.FileHandler.SaveFile | src/fileHandler.js:3-5 | Only the name's key changes; it now maps to the content. |
| FileStore.FileHandler.LoadFile | src/fileHandler.js:6-8 | Returns the stored content, or `''` when the key is absent. |
| FileStore.FileHandler.ListFiles | src/fileHandler.js:9-13 | Returns each stored name exactly once, and nothing else. |
| FileStore.FileHandler.DeleteFile | src/fileHandler.js:14-16 | Only the name's key is removed. |
| Layout.EditorLanguage | src/VSCodeLayout.jsx:101 | The shell's editor language is always one of `typescript`, `javascript` or `html`. |
| Layout.EditorLanguageSuffixes | src/VSCodeLayout.jsx:101 | `.ts` gives `typescript` and `.js` gives `javascript`. `.tsx`, `.jsx` and `.TS` all give `html`. |
| Layout.VSCodeLayout.constructor | src/VSCodeLayout.jsx:9-11 | `files` lists the stored files. `activeTab` is the first one or `''`. `code` is that file's content or `''`. |
| Layout.VSCodeLayout.OpenFile | src/VSCodeLayout.jsx:14-17 | The tab becomes `name` and `code` becomes its stored content. |
| Layout.VSCodeLayout.Edit | src/VSCodeLayout.jsx:104 | Only `code` changes. |
| Layout.VSCodeLayout.SaveFile | src/VSCodeLayout.jsx:20-25 | With no active tab, nothing changes. Otherwise `code` is stored under the tab and the list gains the tab. |
| Layout.VSCodeLayout.NewFile | src/VSCodeLayout.jsx:28-36 | A cancelled, empty or already-listed name changes nothing. A fresh name gets an empty file, joins the list, and becomes the tab with empty `code`. |
| Layout.VSCodeLayout.DeleteFile | src/VSCodeLayout.jsx:39-49 | Without confirmation nothing changes. With it, the key is removed and the list loses the name. Deleting the active file opens the first remaining file, or none. Deleting another file keeps the tab and the text. |
| EditorArea.LastSegment | src/components/EditorArea.tsx:68 | The result is the text after the last `.`, or the whole name when there is no `.`. |
| EditorArea.GetLanguageFromFileName | src/components/EditorArea.tsx:67-89 | Every string gets one of the eight languages. |
| EditorArea.LastSegmentAfterDot | src/components/EditorArea.tsx:68 | Only the text after the last `.` is used as the extension. |
| EditorArea.LastSegmentNoDot | src/components/EditorArea.tsx:68 | A name without a `.` is its own extension. |
| EditorArea.LastSegmentOfLower | src/components/EditorArea.tsx:68 | Lower-casing and taking the extension commute. |
| EditorArea.CaseInsensitive | src/components/EditorArea.tsx:68 | Names that lower-case alike get the same language. |
| EditorArea.ExtensionsByLanguage | src/components/EditorArea.tsx:69-88 | Read backwards, the table gives, for each language, exactly the lower-cased extensions that map to it. Everything else maps to `plaintext`. |
| EditorArea.LanguageOfInverse | src/components/EditorArea.tsx:69-88 | The `switch` maps each extension to its language, and every other string to `plaintext`. |
| EditorArea.LanguageOfExtension | src/components/EditorArea.tsx:68-88 | A lower-case extension after the last dot is looked up as it is. |
| EditorArea.UpperCaseExtension | src/components/EditorArea.tsx:68 | An upper-case `.TSX` file is `typescript`. |
| EditorArea.UnknownIsPlaintext | src/components/EditorArea.tsx:86-87 | An extension outside the table gives `plaintext`. |
| EditorArea.TsxIsTypescript | src/components/EditorArea.tsx:68-75 | A `.tsx` file is `typescript`, whatever its stem. |
| EditorArea.WholeNameAsExtension | src/components/EditorArea.tsx:68 | A name without a dot is looked up as a whole, lower-cased. |
| EditorArea.ShellAndPaneDisagreeOnTsx | src/components/EditorArea.tsx:73-75 | The shell shows a `.tsx` file as `html`, but this pane shows it as `typescript`. |
| Sidebar.Toggle | src/components/Sidebar.tsx:9-17 | The toggled id flips membership. No other id changes. |
| Sidebar.ToggleTwice | src/components/Sidebar.tsx:10-16 | Toggling the same id twice restores the set. |
| Sidebar.TogglesCommute | src/components/Sidebar.tsx:10-16 | Toggling two ids gives the same set in either order. |
| Sidebar.Render | src/components/Sidebar.tsx:19-67 | Every item gets a row. No row is shallower than the starting level. Each row's own `div` has a `paddingLeft` of 16 pixels per level. |
| Sidebar.RenderOffsets | src/components/Sidebar.tsx:20-63 | A row's offset from the tree's edge adds up the paddings of every enclosing item `div`, from the starting level down to the row's own. |
| Sidebar.PlacedInside | src/components/Sidebar.tsx:21-63 | Rows placed inside an item's `div` one level down are placed correctly as seen from that `div`'s parent: the padding 16·(level+1) is added once. |
| Sidebar.OffsetClosedForm | src/components/Sidebar.tsx:21 | Paddings of 0, 16, ..., 16·d add up to 8·d·(d+1) pixels. |
| Sidebar.RowOffsets | src/components/Sidebar.tsx:19-67 | In a tree rendered from level 0, a row at depth d sits 8·d·(d+1) pixels in: 0, 16, 48, 96, ..., not 16·d. |
| Sidebar.RowOf | src/components/Sidebar.tsx:21 | An item's row carries its id, name and kind, its level, a padding of 16 pixels per level, and an offset of the enclosing paddings plus its own. |
| Sidebar.OwnRows | src/components/Sidebar.tsx:20-21 | There is one row per item, at the given level. |
| Sidebar.AtLevelAppend | src/components/Sidebar.tsx:20-66 | Picking the rows of one level distributes over concatenation. |
| Sidebar.TopLevelRowsAreItems | src/components/Sidebar.tsx:19-67 | The rows at the starting level are exactly the items, in order. Everything beneath a folder is deeper. |
| Sidebar.CollapsedShowsOnlyItems | src/components/Sidebar.tsx:60 | With nothing expanded, only the items themselves are shown. |
| Sidebar.HiddenUnlessShown | src/components/Sidebar.tsx:60 | A file, a collapsed folder, or a folder without a `children` array shows only its own row. |
| Sidebar.RenderShown | src/components/Sidebar.tsx:20-64 | An expanded folder with children renders as its own row followed by its children's rows, one level deeper and inside its `div`. |
| Sidebar.ExpandedFolderChildRows | src/components/Sidebar.tsx:60-62 | The rows one level below an expanded folder are exactly its children, in order. |
| Sidebar.ExplorerState.constructor | src/components/Sidebar.tsx:7 | The expanded set starts as exactly `{"root"}`. |
| Sidebar.ExplorerState.ToggleFolder | src/components/Sidebar.tsx:9-17 | The new set is the old one with `folderId` toggled. |
| Sidebar.ExplorerState.Visible | src/components/Sidebar.tsx:19-67 | The top-level rows of the tree are exactly its items. A row at depth d sits 8·d·(d+1) pixels in. |
| RileyPanel.KeywordTestIffLowerContains | src/RileyPanel.jsx:17 | The case-insensitive keyword regex, which folds ASCII letters only, matches iff the lower-cased input includes one of the eight keywords. |
| RileyPanel.AsksForCode | src/RileyPanel.jsx:17 | An input is sent to the model iff its lower-cased form includes one of the eight keywords (by `KeywordTestIffLowerContains`). |
| RileyPanel.MatchesAtIffOccursInLower | src/RileyPanel.jsx:17 | At any offset, a lower-case keyword matches case-insensitively iff it occurs there in the lower-cased input. |
| RileyPanel.ReplyFor | src/RileyPanel.jsx:17-31 | A code request is answered by the model's text for 128 tokens, with the model reasoning, and gets no reply when the model call rejects. Anything else is answered with the compliance prompt and the compliance reasoning. |
| RileyPanel.KeywordRequestGoesToModel | src/RileyPanel.jsx:17-23 | An input containing a keyword, in any ASCII casing, is routed to the model: it is answered exactly when the model returns, with the model's text. |
| RileyPanel.Send | src/RileyPanel.jsx:9-33 | An empty input changes nothing. Otherwise the old messages are kept, the user's message is appended and the input is cleared; then the reply is appended, unless the model call rejected. |
| RileyPanel.UnansweredOnlyIfModelFails | src/RileyPanel.jsx:12-33 | A sent message is left without a reply iff it is a code request and the model call rejects, as it does when loading fails (src/local-model.ts:58-61). |
| RileyPanel.StripFences | src/RileyPanel.jsx:43 | The result is a contiguous piece of the text. A fence at the very start is always removed. Nothing is removed from the front unless it opens with a fence, and nothing from the back unless it closes with one. |
| RileyPanel.StripFencesRoundTrip | src/RileyPanel.jsx:43 | Stripping a fenced block with a lower-case language tag gives back its body. |
| RileyPanel.CodeBodyAsWritten | src/RileyPanel.jsx:43 | Text that neither starts nor ends with a fence is shown unchanged. |
| RileyPanel.AsWrittenKeepsFences | src/RileyPanel.jsx:42-43 | A fenced block with white space around it is shown as code, but the source strips neither fence. |
| RileyPanel.IsCodeBlock | src/RileyPanel.jsx:42 | A message is a code block iff a fence follows its leading white space. Trailing white space never matters, and the empty-text guard excludes nothing more. |
| RileyPanel.SurroundedFenceIsCodeBlock | src/RileyPanel.jsx:42 | A fenced block with white space around it passes the code-block test, which looks at the trimmed text. |
| RileyPanel.SurroundedIsUnfenced | src/RileyPanel.jsx:43 | Text with white space at both ends has no fence at its very start or end, so the fence regex leaves it unchanged. |
| RileyPanel.FencedTrim | src/RileyPanel.jsx:42 | Trimming a fenced block with white space around it leaves exactly the block. |
| RileyPanel.CodeBodyRoundTrip | src/RileyPanel.jsx:42-43 | With the text trimmed first, a fenced block shows exactly its body, whatever white space surrounds it. |
| RileyPanel.Render | src/RileyPanel.jsx:42-45 | A message is shown as code iff its trimmed text starts with a fence. The code shown is the untrimmed text with a leading and a trailing fence stripped. Plain messages are shown unchanged. |
| RileyPanel.RenderIntended | src/RileyPanel.jsx:42-45 | The corrected renderer: the same code-block test; the code shown is `CodeBody`, the fences stripped from the trimmed text. Plain messages are shown unchanged. |
| RileyPanel.RenderersDisagree | src/RileyPanel.jsx:42-43 | On a fenced reply with white space around it, the panel shows the whole text, fences included, and the corrected renderer shows just the body. |
| RileyPanel.Panel.constructor | src/RileyPanel.jsx:5-6 | The panel starts with no messages and an empty input. |
| RileyPanel.Panel.SetInput | src/RileyPanel.jsx:58 | Only the input changes. |
| RileyPanel.Panel.SendMessage | src/RileyPanel.jsx:9-34 | The new messages and input are those `Send` gives from the old ones, with the agent's prompt as the fallback reply. A rejected model call ends the send after the user's message. |

## Left out

- Text.Lower: `toLowerCase` is modelled for ASCII and Latin-1 capitals and for the Kelvin and Angstrom signs, which fold to `k` and `å`. Other Unicode case mappings are not modelled. In particular `İ` (U+0130) lower-cases to `i` followed by U+0307 in JavaScript, while the model leaves it unchanged. So a name such as `APİ`, or any name where `İ` completes a term ending in `i` (`api`, `openai`, `gemini`), is refused by the source but passes the model's `Compliance` checks. `Brain`'s phrases have no term ending in `i`, so `Brain` is unaffected.
- JSON parsing and file I/O: the contents of `package.json` are an input. A file that cannot be read or parsed, or that parses to `null`, is the single outcome `UnreadablePackage`. Its error is the runtime's own, so `Compliance.Message` gives no text for it.
- Compliance.PackageJson: a `dependencies` or `devDependencies` value that is a non-object is not modelled; each field is either missing or a list of keys in `Object.keys` order.
- `generateCode` and `src/local-model.ts`: the local model is a function parameter. Its result stands for the settled promise: `None` when loading the model fails and the error is rethrown (src/local-model.ts:58-61), and otherwise the text, which for a generation error is the `Error generating code: ...` message (src/local-model.ts:72-74). Loading, caching and async timing are not modelled.
- `src/RileyPanel.jsx` never imports `useState`, so as written the first render of the panel throws a `ReferenceError`, and so does the shell, which renders the panel (src/VSCodeLayout.jsx:83). The model describes the panel as if the hook were imported.
- `src/FileHandlerNodeFS.js`: Node filesystem wrapper with logging, no logic of its own.
- FileStore.FileHandler.SaveFile: `localStorage.setItem` can throw when the storage quota is exceeded; the model's store has no quota, so saving never fails.
- FileStore.FileHandler.ListFiles: the enumeration order of `localStorage` keys is unspecified, so the model promises only "each stored name once".
- Brain.AgentBrain: `history` is declared as a list of replies; the source never writes it, so its element type is not fixed.
- RileyPanel.Panel.SendMessage: `getPrompt` always exists on the agent, so the `'Riley is ready.'` fallback cannot be reached and is not modelled. The two state updates are modelled as happening in order; interleaving across an `await` by a second send is not modelled.
- React rendering, focus, scrolling and the terminal set-up in `src/VSCodeLayout.jsx` are not modelled; nor are the palette's `show` prop and the sidebar's `openFile`/`createNewFile`/`deleteFile` store calls, which come from a store that is not part of this model.
- The Qt and Electron shells, the stubbed inference engine, `src/components/BottomPanel.tsx` (which evaluates user input), the settings, top-bar, Monaco and terminal components, the Python scripts and the patch scripts are not part of this model.

## Findings

| source | as written | input that shows it | evidently intended | confidence | as-written member | corrected member |
|---|---|---|---|---|---|---|
| src/RileyPanel.jsx:42-43 | The code-block test trims the text, but the fence-stripping regex runs on the untrimmed text. `^` and `$` then miss fences that have white space around them. | A reply of `"\n```js\nx\n```\n"`: it is shown as a code block, and both fences and the tag stay in it. | Strip the fences from the trimmed text, so the block shows `"\nx\n"`. | not executed | RileyPanel.RenderersDisagree | RileyPanel.CodeBodyRoundTrip |
