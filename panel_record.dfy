/**
  The record that panelManager.js keeps for every open calculator panel, the
  three events that change it, and the test made when the panel is disposed.

  A calculator state is compared by the extension only through its JSON text
  (`JSON.stringify(a) !== JSON.stringify(b)`), so `Content` is that text: two
  states are the same `Content` exactly when they serialise identically
  (which makes the comparison sensitive to key order, as the source's is).
 */
module PanelRecord {
  import opened Wrappers

  /** A calculator state, identified by its JSON serialisation. */
  datatype Content = Content(json: string)

  /**
    The location returned by the save dialog, present only when the dialog was
    answered and the file write to it returned; only its presence is consulted.
   */
  datatype SaveUri = SaveUri(fsPath: string)

  /** A message posted by the webview: `{ command, data }`. */
  datatype Message = Message(command: string, data: Content)

  /**
    The `panelState` record:
    - tempState: the last state the widget reported;
    - jsonTemp: the state at the last export whose save dialog was answered
      and whose file write returned;
    - tempImport: the state at the last import;
    - justImported: set by an import, never read by the source.
   */
  datatype PanelState = PanelState(
    tempState: Option<Content>,
    jsonTemp: Option<Content>,
    tempImport: Option<Content>,
    justImported: bool)

  /** The record a newly opened panel starts with. */
  function Initial(): (s: PanelState)
    ensures s.tempState.None? && s.jsonTemp.None? && s.tempImport.None?
    ensures !s.justImported
  {
    PanelState(None, None, None, false)
  }

  /**
    The dispose test: there is a last reported state, and it is neither the
    last exported one nor the last imported one.
   */
  predicate Unsaved(s: PanelState) {
    && s.tempState.Some?
    && s.tempState != s.jsonTemp
    && s.tempState != s.tempImport
  }

  /** What disposal hands to `onUnsaved`, if anything. */
  function UnsavedEvent(s: PanelState): (r: Option<Content>)
    ensures r.Some? <==> Unsaved(s)
    ensures r.Some? ==> s.tempState == Some(r.value)
  {
    if Unsaved(s) then s.tempState else None
  }

  /** A "tempState" message: the widget reported `data` after a change. */
  function ReceiveTempState(s: PanelState, data: Content): (r: PanelState)
    ensures r.tempState == Some(data)
    ensures r.jsonTemp == s.jsonTemp && r.tempImport == s.tempImport
    // the flag is never raised here ...
    ensures r.justImported ==> s.justImported
    // ... it survives a report of the imported state ...
    ensures s.tempImport == Some(data) ==> r.justImported == s.justImported
    // ... and is cleared by any other report
    ensures s.tempImport != Some(data) ==> !r.justImported
  {
    var cleared := s.justImported && Some(data) != s.tempImport;
    s.(justImported := if cleared then false else s.justImported,
       tempState := Some(data))
  }

  /** A "calcState" message: the widget's state for an export, and the save dialog's answer. */
  function ReceiveCalcState(s: PanelState, data: Content, saveUri: Option<SaveUri>): (r: PanelState)
    ensures saveUri.None? ==> r == s
    ensures saveUri.Some? ==> r.jsonTemp == Some(data)
    ensures r.tempState == s.tempState && r.tempImport == s.tempImport
    ensures r.justImported == s.justImported
  {
    if saveUri.Some? then s.(jsonTemp := Some(data)) else s
  }

  /**
    The webview message handler: "calcState" and "tempState" are handled,
    every other command is ignored. The save dialog is opened only for
    "calcState", so `saveUri` is consulted only there.
   */
  function Receive(s: PanelState, msg: Message, saveUri: Option<SaveUri>): (r: PanelState)
    ensures msg.command == "calcState" ==> r == ReceiveCalcState(s, msg.data, saveUri)
    ensures msg.command == "tempState" ==> r == ReceiveTempState(s, msg.data)
    ensures msg.command != "calcState" && msg.command != "tempState" ==> r == s
  {
    if msg.command == "calcState" then ReceiveCalcState(s, msg.data, saveUri)
    else if msg.command == "tempState" then ReceiveTempState(s, msg.data)
    else s
  }

  /** `setTempImport(panel, data)` on a registered panel. */
  function Import(s: PanelState, data: Content): (r: PanelState)
    ensures r.tempImport == Some(data) && r.tempState == Some(data)
    ensures r.justImported
    ensures r.jsonTemp == s.jsonTemp
  {
    s.(tempImport := Some(data), tempState := Some(data), justImported := true)
  }

  /** One event that reaches a panel's record while it is open. */
  datatype Event =
    | Received(msg: Message, saveUri: Option<SaveUri>)
    | Imported(data: Content)

  function Step(s: PanelState, e: Event): PanelState {
    match e
    case Received(msg, saveUri) => Receive(s, msg, saveUri)
    case Imported(data) => Import(s, data)
  }

  /** The record after the events `es`, applied in order. */
  function Run(s: PanelState, es: seq<Event>): PanelState
    decreases |es|
  {
    if es == [] then s else Run(Step(s, es[0]), es[1..])
  }

  // ---------------------------------------------------------------------
  // The import-echo flag

  /**
    What the flag records: while it is up, the last reported state is the
    last imported one.
   */
  predicate EchoConsistent(s: PanelState) {
    s.justImported ==> s.tempImport.Some? && s.tempState == s.tempImport
  }

  lemma StepKeepsEcho(s: PanelState, e: Event)
    requires EchoConsistent(s)
    ensures EchoConsistent(Step(s, e))
  {
  }

  /** Every record reached from a consistent one by any events is consistent. */
  lemma {:induction false} RunKeepsEcho(s: PanelState, es: seq<Event>)
    requires EchoConsistent(s)
    ensures EchoConsistent(Run(s, es))
    decreases |es|
  {
    if es != [] {
      StepKeepsEcho(s, es[0]);
      RunKeepsEcho(Step(s, es[0]), es[1..]);
    }
  }

  /**
    In every record a panel can reach, a raised `justImported` flag already
    implies the panel is not unsaved: the flag adds nothing to the dispose test.
   */
  lemma {:induction false} FlagImpliesClean(es: seq<Event>)
    ensures Run(Initial(), es).justImported ==> !Unsaved(Run(Initial(), es))
  {
    RunKeepsEcho(Initial(), es);
  }

  // ---------------------------------------------------------------------
  // When disposal emits nothing

  /** A panel that was only opened has nothing unsaved. */
  lemma InitialIsClean()
    ensures !Unsaved(Initial())
  {
  }

  /** Right after an import the panel is not unsaved, whatever came before. */
  lemma ImportIsClean(s: PanelState, d: Content)
    ensures !Unsaved(Import(s, d))
    ensures UnsavedEvent(Import(s, d)) == None
  {
  }

  /** An event that reports no state other than `d` and imports nothing other than `d`. */
  predicate OnlyEchoes(e: Event, d: Content) {
    match e
    case Imported(x) => x == d
    case Received(msg, _) => msg.command == "tempState" ==> msg.data == d
  }

  /**
    After `setTempImport(d)`, as long as the widget reports only `d` (exports
    of anything, answered or not, are allowed), disposal emits nothing.
   */
  lemma {:induction false} ImportThenEchoesIsClean(s: PanelState, d: Content, es: seq<Event>)
    requires forall i :: 0 <= i < |es| ==> OnlyEchoes(es[i], d)
    ensures Run(Import(s, d), es).tempState == Some(d)
    ensures !Unsaved(Run(Import(s, d), es))
    decreases |es|
  {
    if es != [] {
      var t := Step(Import(s, d), es[0]);
      assert t == Import(t, d);
      ImportThenEchoesIsClean(t, d, es[1..]);
    }
  }

  /** An event that reports only `d` and saves an export only of `d`; imports are free. */
  predicate KeepsExport(e: Event, d: Content) {
    match e
    case Imported(_) => true
    case Received(msg, saveUri) =>
      && (msg.command == "tempState" ==> msg.data == d)
      && (msg.command == "calcState" && saveUri.Some? ==> msg.data == d)
  }

  /** The state is the exported `d`, or it is the imported state. */
  predicate Exported(s: PanelState, d: Content) {
    s.jsonTemp == Some(d) && (s.tempState == Some(d) || s.tempState == s.tempImport)
  }

  lemma {:induction false} RunKeepsExported(s: PanelState, d: Content, es: seq<Event>)
    requires Exported(s, d)
    requires forall i :: 0 <= i < |es| ==> KeepsExport(es[i], d)
    ensures Exported(Run(s, es), d)
    decreases |es|
  {
    if es != [] {
      assert KeepsExport(es[0], d);
      RunKeepsExported(Step(s, es[0]), d, es[1..]);
    }
  }

  /**
    After an answered export of the current state `d`, disposal emits nothing
    for as long as the widget reports only `d` and no other state is saved.
   */
  lemma {:induction false} ExportThenEchoesIsClean(
    s: PanelState, d: Content, uri: SaveUri, es: seq<Event>)
    requires s.tempState == Some(d)
    requires forall i :: 0 <= i < |es| ==> KeepsExport(es[i], d)
    ensures !Unsaved(Run(ReceiveCalcState(s, d, Some(uri)), es))
  {
    RunKeepsExported(ReceiveCalcState(s, d, Some(uri)), d, es);
  }

  // ---------------------------------------------------------------------
  // When disposal emits the state

  /**
    A report of `b` after importing a different `a` makes the panel unsaved,
    unless `b` is what was last exported; the flag is dropped either way.
   */
  lemma ImportThenChangeIsDirty(s: PanelState, a: Content, b: Content)
    requires a != b
    ensures var t := ReceiveTempState(Import(s, a), b);
      && !t.justImported
      && (Unsaved(t) <==> s.jsonTemp != Some(b))
      && (Unsaved(t) ==> UnsavedEvent(t) == Some(b))
  {
  }

  /**
    The export is finished after the save dialog returns, so other events may
    run in between. An export changes only `jsonTemp` and the other events never
    touch it, so the order in which they take effect makes no difference.
   */
  lemma ExportCommutes(s: PanelState, d: Content, saveUri: Option<SaveUri>, x: Content)
    ensures ReceiveCalcState(ReceiveTempState(s, x), d, saveUri)
         == ReceiveTempState(ReceiveCalcState(s, d, saveUri), x)
    ensures ReceiveCalcState(Import(s, x), d, saveUri)
         == Import(ReceiveCalcState(s, d, saveUri), x)
  {
  }

  /** A dismissed save dialog changes nothing, so it cannot make a panel clean. */
  lemma DismissedExportKeepsVerdict(s: PanelState, d: Content)
    ensures Unsaved(ReceiveCalcState(s, d, None)) == Unsaved(s)
  {
  }
}
