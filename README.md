# Desmos panel manager: unsaved-work tracking

This project models the panel manager of a VS Code extension that embeds the
Desmos graphing calculator in webview panels (`panelManager.js`). The manager
keeps one record per open panel in a module-level `Map`. The record holds the
last state the calculator reported (`tempState`), the state at the last export
whose save dialog was answered and whose file write returned (`jsonTemp`), and
the state at the last import (`tempImport`). It also holds a `justImported` flag. When a panel is closed,
the manager reports its state through `onUnsaved` exactly when that state
exists and differs from both the exported and the imported state. It then
drops the panel from the map. `getPanel` returns the first visible panel in
the map's insertion order, for the export and import commands.

Layout:

- `wrappers.dfy`: module `Wrappers`, the `Option` type that stands for JavaScript's `null`.
- `panel_record.dfy`: module `PanelRecord`. It holds the record as a datatype and each event's
  effect on it as a function. It also holds the dispose test (`Unsaved`, `UnsavedEvent`) and
  lemmas about runs of events (`Step`, `Run`).
- `panel_manager.dfy`: module `PanelManager`. The `Registry` class stands for the `panels` Map:
  a sequence of (panel, record) entries in insertion order with distinct panels. Its methods are
  `Open`, `OnDidReceiveMessage`, `SetTempImport`, `Dispose` and `GetPanel`. Each method's
  contract ties the new entries to the `PanelRecord` functions. The module also has
  lemmas saying that the other panels' lookups (`panels.get`) are unchanged, and small
  clients (`TwoPanelsActive`, `ImportEchoScenario`, `ChangeScenario`, `StaleImportScenario`)
  that use only the methods' contracts.

Modelling decisions:

- The source compares calculator states only as `JSON.stringify` text, so a `Content` is that
  text. Two states are equal exactly when they serialise identically. Like the source, this is
  sensitive to key order.
- A `null` field is `None`. `JSON.stringify(null)` is `"null"`, which never equals an object's
  serialisation, so the source's string comparisons are `Option` equality. The truthiness test on
  `tempState` is `Some?`, because a calculator state is an object and objects are always truthy.
- `createWebviewPanel` always returns a new object, so `Open` allocates a new `Handle` from a
  counter that only grows. A panel's `visible` flag belongs to the editor. `GetPanel` therefore
  takes the set of visible panels as a parameter.
- The save dialog's answer is an `Option<SaveUri>` input to the message handler. It is consulted
  only for `"calcState"`. `Some` means the dialog was answered and the file write returned. A
  dismissed dialog, or a write that throws before `jsonTemp` is assigned, is `None`.
- Each event is one atomic step. The export is completed only after the dialog returns, so other
  events can run in between. An export changes only `jsonTemp`, which no other event touches.
  `ExportCommutes` shows that the order of those steps makes no difference, so the atomic view
  loses nothing observable.
- `Dispose` returns the `onUnsaved` argument as an `Option<Content>` instead of calling a callback.
- In the source, the message and dispose handlers capture the record directly; they do not look it
  up in the map. The record is registered at open and removed by the panel's single dispose.
  The model looks the panel up and makes an event for an unregistered handle a no-op.
  - An export still waiting on its dialog when the panel is disposed can resume afterwards. It
    then writes `jsonTemp` into the removed record.
  - Nothing reads that record again, so the no-op loses nothing observable.
- The `justImported` flag is cleared only when the reported state differs from `tempImport`
  (panelManager.js:68-70). It is not cleared on every report, and it is never read. The model
  follows the code.
  `FlagImpliesClean` shows that the flag adds nothing to the dispose test.

## Model

| member | source | states |
|---|---|---|
| `PanelRecord.Initial` | panelManager.js:50-55 | a new record has all three states null and the flag down |
| `PanelRecord.UnsavedEvent` | panelManager.js:75-82 | disposal emits a state if and only if the record is `Unsaved` (the test at lines 76-80: a state exists and differs from both the exported and the imported state), and what it emits is `tempState` |
| `PanelRecord.ReceiveTempState` | panelManager.js:67-72 | a "tempState" message sets `tempState` to the data and leaves `jsonTemp` and `tempImport` alone; the flag is never raised, survives a report equal to `tempImport`, and is cleared by any other report |
| `PanelRecord.ReceiveCalcState` | panelManager.js:59-65 | an export whose save dialog was answered and whose file write returned sets `jsonTemp` to the exported data and nothing else; a dismissed dialog (or a failed write) changes nothing |
| `PanelRecord.Receive` | panelManager.js:58-73 | the handler dispatches "calcState" and "tempState" and ignores every other command |
| `PanelRecord.Import` | panelManager.js:100-107 | `setTempImport` sets `tempImport` and `tempState` to the data and raises the flag, leaving `jsonTemp` alone |
| `PanelRecord.StepKeepsEcho` | panelManager.js:67-72 | every event keeps "flag up implies `tempState` equals the imported state" |
| `PanelRecord.RunKeepsEcho` | panelManager.js:58-73 | any run of messages and imports keeps that invariant |
| `PanelRecord.FlagImpliesClean` | panelManager.js:68-80 | in every record reachable from a new panel, a raised flag implies the panel is not unsaved |
| `PanelRecord.InitialIsClean` | panelManager.js:50-55 | disposing a panel that reported nothing emits nothing (a documentation corollary of `Initial`'s contract) |
| `PanelRecord.ImportIsClean` | panelManager.js:100-107 | directly after `setTempImport`, disposal emits nothing |
| `PanelRecord.ImportThenEchoesIsClean` | panelManager.js:100-107 | after `setTempImport(d)` followed by any events that report only `d` and import only `d` (exports allowed), `tempState` is `d` and disposal emits nothing |
| `PanelRecord.RunKeepsExported` | panelManager.js:58-73 | "exported `d`, and the state is `d` or the imported state" survives events that report only `d` and save only `d` |
| `PanelRecord.ExportThenEchoesIsClean` | panelManager.js:59-65 | after an export of the current state `d` that was answered and written, disposal emits nothing as long as the widget reports only `d` and no other state is saved |
| `PanelRecord.ImportThenChangeIsDirty` | panelManager.js:67-80 | after importing `a`, a report of a different `b` drops the flag and makes the panel unsaved exactly when `b` was not the last export, and disposal then emits `b` |
| `PanelRecord.DismissedExportKeepsVerdict` | panelManager.js:59-61 | a dismissed save dialog leaves the dispose verdict as it was (a documentation corollary of `ReceiveCalcState`'s contract) |
| `PanelRecord.ExportCommutes` | panelManager.js:59-72 | completing an export before or after a "tempState" message or an import gives the same record |
| `PanelManager.IndexOf` | panelManager.js:101 | the lookup finds a position holding the panel, and finds none exactly when the panel is not registered |
| `PanelManager.Lookup` | panelManager.js:101 | `panels.get` finds a record exactly when the panel is registered, and the record it finds is one held for that panel (with distinct panels, that panel's only record) |
| `PanelManager.AppendKeepsOthers` | panelManager.js:56 | registering a new panel makes its record visible to lookups and changes no other lookup |
| `PanelManager.UpdateKeepsOthers` | panelManager.js:58-73 | replacing one panel's record changes the lookup of that panel only |
| `PanelManager.RemoveKeepsOthers` | panelManager.js:83 | removing one panel unregisters it and changes no other lookup |
| `PanelManager.Registry.constructor` | panelManager.js:4 | the registry starts empty |
| `PanelManager.Registry.Open` | panelManager.js:50-56 | opening adds exactly one entry at the end, for a panel never handed out before, with the all-null record; every other lookup is unchanged |
| `PanelManager.Registry.OnDidReceiveMessage` | panelManager.js:58-73 | only the messaged panel's record changes, to `Receive` of the old one; other entries and lookups are unchanged |
| `PanelManager.Registry.SetTempImport` | panelManager.js:100-107 | on a registered panel only its record changes, to `Import` of the old one; on any other handle nothing changes |
| `PanelManager.Registry.Dispose` | panelManager.js:75-84 | returns `UnsavedEvent` of the panel's final record, removes the panel in every case, and keeps every other entry, in order, with its record |
| `PanelManager.Registry.GetPanel` | panelManager.js:91-98 | returns a visible registered panel that no visible panel precedes in insertion order, and returns none exactly when no registered panel is visible |

## Left out

- `getHtml` (the webview's HTML and script text) is rendering, not state. The widget's
  `Calc.getState`/`setState` calls are not modelled either; a message carries its data as an input.
- The VS Code and file-system calls are not modelled: `createWebviewPanel`, `asWebviewUri`,
  `postMessage` (including the `restoredState` import sent at open), `showSaveDialog`,
  `writeFileSync` and `showInformationMessage`. The dialog's answer is an input.
- The suspension at `await showSaveDialog` is not modelled as a separate state. The model applies
  the export when the dialog returns. In the source, other events may run while the dialog is
  open; `ExportCommutes` shows that this changes no record.
- `PanelRecord.ReceiveCalcState`: `Some(uri)` stands for a dialog that was answered and a
  `writeFileSync` that returned. A write that throws leaves `jsonTemp` unchanged, and it is the
  `None` case. File-system failures themselves are not modelled.
- `PanelManager.Registry.Dispose`: assumes the `onUnsaved` callback returns normally. A callback
  that throws skips `panels.delete`, so the panel would stay registered; that path is not modelled.
- `JSON.stringify` itself is not modelled; a `Content` is the serialised text.
- `onRestore` is accepted by `openDesmos` but never used.
- `extension.js` is command and tree-view plumbing, and it is not part of this model. Neither of
  its callers passes `onUnsaved`, and its import command never calls `setTempImport`.
- There is no recovery store, persistence or capacity bound in the code, so none is modelled.
