/**
  The module-level `panels` Map of panelManager.js and the handlers that
  update it: opening a panel, the webview message handler, `setTempImport`,
  the dispose handler and `getPanel`.

  A JavaScript Map iterates in insertion order, so the registry is a sequence
  of (panel, record) entries with distinct panels: `set` of a new panel
  appends, `delete` removes in place, and the other entries keep their order.
 */
module PanelManager {
  import opened Wrappers
  import opened PanelRecord

  /** The identity of a webview panel object. */
  datatype Handle = Handle(id: nat)

  datatype Entry = Entry(panel: Handle, state: PanelState)

  /** Where `h` sits in `es`, if anywhere: the lookup `panels.get(h)`. */
  function IndexOf(es: seq<Entry>, h: Handle): (r: Option<nat>)
    ensures r.Some? ==> r.value < |es| && es[r.value].panel == h
    ensures r.None? <==> forall i :: 0 <= i < |es| ==> es[i].panel != h
    decreases |es|
  {
    if es == [] then None
    else if es[0].panel == h then Some(0)
    else match IndexOf(es[1..], h)
      case None => None
      case Some(i) => Some(i + 1)
  }

  /** No panel is registered twice. */
  predicate Distinct(es: seq<Entry>) {
    forall i, j :: 0 <= i < j < |es| ==> es[i].panel != es[j].panel
  }

  /** `panels.get(h)`: the record of `h`, or none when `h` is not registered. */
  function Lookup(es: seq<Entry>, h: Handle): (r: Option<PanelState>)
    ensures r.None? <==> forall i :: 0 <= i < |es| ==> es[i].panel != h
    // with `Distinct(es)` there is only one such entry, so this is its record
    ensures r.Some? ==> exists i :: 0 <= i < |es| && es[i].panel == h && es[i].state == r.value
  {
    match IndexOf(es, h)
    case None => None
    case Some(i) => Some(es[i].state)
  }

  /** Replacing the record at `i` changes what a lookup finds for that panel only. */
  lemma UpdateKeepsOthers(es: seq<Entry>, i: nat, st: PanelState, g: Handle)
    requires Distinct(es) && i < |es|
    ensures Distinct(es[i := Entry(es[i].panel, st)])
    ensures Lookup(es[i := Entry(es[i].panel, st)], g)
         == if g == es[i].panel then Some(st) else Lookup(es, g)
  {
    var es' := es[i := Entry(es[i].panel, st)];
    assert forall k :: 0 <= k < |es| ==> es'[k].panel == es[k].panel;
    match IndexOf(es, g)
    case None =>
      assert IndexOf(es', g).None?;
    case Some(j) =>
      assert es'[j].panel == g;
  }

  /** Appending a new panel registers it and changes no other lookup. */
  lemma AppendKeepsOthers(es: seq<Entry>, e: Entry, g: Handle)
    requires Distinct(es) && forall k :: 0 <= k < |es| ==> es[k].panel != e.panel
    ensures Distinct(es + [e])
    ensures Lookup(es + [e], g) == if g == e.panel then Some(e.state) else Lookup(es, g)
  {
    var es' := es + [e];
    match IndexOf(es, g)
    case None =>
      if g == e.panel {
        assert es'[|es|] == e;
      } else {
        assert IndexOf(es', g).None?;
      }
    case Some(j) =>
      assert es'[j] == es[j];
  }

  /** Removing the entry at `i` unregisters that panel and changes no other lookup. */
  lemma RemoveKeepsOthers(es: seq<Entry>, i: nat, g: Handle)
    requires Distinct(es) && i < |es|
    ensures Distinct(es[..i] + es[i + 1..])
    ensures Lookup(es[..i] + es[i + 1..], g) == if g == es[i].panel then None else Lookup(es, g)
  {
    var es' := es[..i] + es[i + 1..];
    assert forall k :: 0 <= k < |es'| ==> es'[k] == es[if k < i then k else k + 1];
    match IndexOf(es, g)
    case None =>
      assert IndexOf(es', g).None?;
    case Some(j) =>
      if j == i {
        assert IndexOf(es', g).None?;
      } else {
        var j' := if j < i then j else j - 1;
        assert es'[j'] == es[j];
      }
  }

  class Registry {
    /** The registered panels, in the order they were opened. */
    var entries: seq<Entry>
    /**
      The next identity `createWebviewPanel` hands out: every call yields a
      new object, so no identity is ever reused.
     */
    var nextId: nat
    /** Every panel created so far, open or disposed. */
    ghost var issued: set<Handle>

    ghost predicate Valid()
      reads this
    {
      && Distinct(entries)
      && (forall i :: 0 <= i < |entries| ==> entries[i].panel in issued)
      && (forall g :: g in issued ==> g.id < nextId)
    }

    /** `panels.has(h)`. */
    predicate IsOpen(h: Handle)
      reads this
    {
      IndexOf(entries, h).Some?
    }

    /** `const panels = new Map()`. */
    constructor ()
      ensures Valid()
      ensures entries == [] && issued == {}
    {
      entries := [];
      nextId := 0;
      issued := {};
    }

    /**
      Opening a panel: a new panel is created and registered with an
      all-null record; every other entry stays as it was.
     */
    method Open() returns (h: Handle)
      requires Valid()
      modifies this
      ensures Valid()
      ensures h !in old(issued) && issued == old(issued) + {h}
      ensures IsOpen(h)
      ensures entries == old(entries) + [Entry(h, Initial())]
      ensures forall g :: Lookup(entries, g) == if g == h then Some(Initial()) else old(Lookup(entries, g))
    {
      h := Handle(nextId);
      ghost var es := entries;
      entries := entries + [Entry(h, Initial())];
      nextId := nextId + 1;
      issued := issued + {h};
      assert entries[|entries| - 1].panel == h;
      forall g ensures Lookup(entries, g) == if g == h then Some(Initial()) else Lookup(es, g) {
        AppendKeepsOthers(es, Entry(h, Initial()), g);
      }
    }

    /**
      The webview message handler of panel `h`, with the save dialog's answer.
      Only that panel's record changes, as `Receive` says.
     */
    method OnDidReceiveMessage(h: Handle, msg: Message, saveUri: Option<SaveUri>)
      requires Valid()
      modifies this
      ensures Valid()
      ensures nextId == old(nextId) && issued == old(issued)
      ensures match IndexOf(old(entries), h)
        case None => entries == old(entries)
        case Some(i) => entries == old(entries)[i := Entry(h, Receive(old(entries)[i].state, msg, saveUri))]
      ensures forall g :: g != h ==> Lookup(entries, g) == old(Lookup(entries, g))
    {
      match IndexOf(entries, h)
      case None =>
      case Some(i) =>
        ghost var es := entries;
        var st := Receive(entries[i].state, msg, saveUri);
        entries := entries[i := Entry(h, st)];
        forall g | g != h ensures Lookup(entries, g) == Lookup(es, g) {
          UpdateKeepsOthers(es, i, st, g);
        }
        UpdateKeepsOthers(es, i, st, h);
    }

    /**
      `setTempImport(panel, data)`: records an import on a registered panel
      and does nothing for any other handle.
     */
    method SetTempImport(h: Handle, data: Content)
      requires Valid()
      modifies this
      ensures Valid()
      ensures nextId == old(nextId) && issued == old(issued)
      ensures match IndexOf(old(entries), h)
        case None => entries == old(entries)
        case Some(i) => entries == old(entries)[i := Entry(h, Import(old(entries)[i].state, data))]
      ensures forall g :: g != h ==> Lookup(entries, g) == old(Lookup(entries, g))
    {
      match IndexOf(entries, h)
      case None =>
      case Some(i) =>
        ghost var es := entries;
        var st := Import(entries[i].state, data);
        entries := entries[i := Entry(h, st)];
        forall g | g != h ensures Lookup(entries, g) == Lookup(es, g) {
          UpdateKeepsOthers(es, i, st, g);
        }
        UpdateKeepsOthers(es, i, st, h);
    }

    /**
      The dispose handler of panel `h`: reports the record's state when it is
      unsaved, then removes the panel, keeping the others in order.
     */
    method Dispose(h: Handle) returns (unsaved: Option<Content>)
      requires Valid()
      modifies this
      ensures Valid()
      ensures nextId == old(nextId) && issued == old(issued)
      ensures !IsOpen(h)
      ensures match IndexOf(old(entries), h)
        case None => entries == old(entries) && unsaved == None
        case Some(i) =>
          && entries == old(entries)[..i] + old(entries)[i + 1..]
          && unsaved == UnsavedEvent(old(entries)[i].state)
      ensures forall g :: g != h ==> Lookup(entries, g) == old(Lookup(entries, g))
    {
      match IndexOf(entries, h)
      case None =>
        unsaved := None;
      case Some(i) =>
        ghost var es := entries;
        unsaved := UnsavedEvent(entries[i].state);
        entries := entries[..i] + entries[i + 1..];
        forall g ensures Lookup(entries, g) == if g == h then None else Lookup(es, g) {
          RemoveKeepsOthers(es, i, g);
        }
    }

    /**
      `getPanel()`: the earliest-opened registered panel that is visible, or
      none exactly when no registered panel is. Visibility belongs to the
      editor, so it is given as the set of visible panels.
     */
    method GetPanel(visible: set<Handle>) returns (r: Option<Handle>)
      ensures r.None? <==> forall i :: 0 <= i < |entries| ==> entries[i].panel !in visible
      ensures r.Some? ==> r.value in visible
      ensures r.Some? ==> exists i :: && 0 <= i < |entries| && entries[i].panel == r.value
                                      && forall j :: 0 <= j < i ==> entries[j].panel !in visible
    {
      var k := 0;
      while k < |entries|
        invariant 0 <= k <= |entries|
        invariant forall j :: 0 <= j < k ==> entries[j].panel !in visible
      {
        if entries[k].panel in visible {
          return Some(entries[k].panel);
        }
        k := k + 1;
      }
      return None;
    }
  }

  /** Two panels open, only the first one visible: the export and import commands act on it. */
  method TwoPanelsActive() {
    var reg := new Registry();
    var h1 := reg.Open();
    var h2 := reg.Open();
    var active := reg.GetPanel({h1});
    assert reg.entries[0].panel == h1;
    assert active == Some(h1);
  }

  /** An import echoed back unchanged leaves nothing unsaved: closing the panel emits nothing. */
  method ImportEchoScenario(x: Content) {
    var reg := new Registry();
    var h := reg.Open();
    reg.SetTempImport(h, x);
    reg.OnDidReceiveMessage(h, Message("tempState", x), None);
    var u := reg.Dispose(h);
    assert u == None;
    assert reg.entries == [];
  }

  /**
    Two panels open: a change reported by the second leaves the first alone,
    and closing the second hands the change out.
   */
  method ChangeScenario(x: Content) {
    var reg := new Registry();
    var h1 := reg.Open();
    var h2 := reg.Open();
    reg.OnDidReceiveMessage(h2, Message("tempState", x), None);
    assert reg.entries == [Entry(h1, Initial()), Entry(h2, ReceiveTempState(Initial(), x))];
    assert IndexOf(reg.entries, h2) == Some(1);
    assert UnsavedEvent(ReceiveTempState(Initial(), x)) == Some(x);
    var u := reg.Dispose(h2);
    assert u == Some(x);
    assert reg.entries == [Entry(h1, Initial())];
  }

  /**
    The import command keeps its panel across the open-file dialog. If that
    panel is closed and another opened meanwhile, the import reaches nothing:
    the new panel is a different one and keeps its fresh record.
   */
  method StaleImportScenario(x: Content) {
    var reg := new Registry();
    var h1 := reg.Open();
    var u := reg.Dispose(h1);
    var h2 := reg.Open();
    assert h1 != h2;
    reg.SetTempImport(h1, x);
    assert reg.entries == [Entry(h2, Initial())];
  }
}
